/**
 * The Scoring v2 result as a function of the set of findings: no order, no loops.
 * The engine is proved to compute it; the score laws are proved about it.
 */
module ScoringModel {
  import opened Common
  import opened Orders
  import opened Text
  import opened Vocabulary
  import opened ScoringContracts
  import opened ScoringPenalties

  type Key = seq<string>

  function NormalizedSubject(id: NetworkScoringIdentity, text: TextServices): string {
    if id.applicationIdentity.Some? && id.applicationIdentity.value != "" then
      "application:" + text.casefold(id.applicationIdentity.value)
    else if id.processBasename.Some? && id.processBasename.value != "" then
      "process:" + text.casefold(id.processBasename.value)
    else
      "unknown:" + id.protocol + ":" + Decimal(id.port)
  }

  /** The family of a network finding; any other finding is a group of its own. */
  function GroupKey(f: ScoringFinding, text: TextServices): Key {
    match f.network
    case Some(id) =>
      [f.category.Value(), text.casefold(f.source), NormalizedSubject(id, text), id.protocol,
       id.bindExposure.Value(), id.reachability.Value(), f.severity.Value(), f.state.Value()]
    case None =>
      [f.category.Value(), text.casefold(f.source), f.findingId]
  }

  function StableGroupId(key: Key, text: TextServices): string {
    text.OpaqueId("score-group", key)
  }

  ghost predicate ValidFindings(fs: set<ScoringFinding>, text: TextServices) {
    && (forall f :: f in fs ==> f.Valid(text))
    && (forall f, g :: f in fs && g in fs && f.findingId == g.findingId ==> f == g)
  }

  /** The texts whose digests name the groups of a finding set. */
  ghost function GroupTexts(fs: set<ScoringFinding>, text: TextServices): set<string> {
    set f | f in fs && Eligible(f) :: NulJoin(GroupKey(f, text))
  }

  /** What grouping by id relies on: the group keys of these findings have digests of their own. */
  ghost predicate DigestsApart(fs: set<ScoringFinding>, text: TextServices) {
    text.Valid() && text.CollisionFree(GroupTexts(fs, text))
  }

  ghost function Members(fs: set<ScoringFinding>, key: Key, text: TextServices): set<ScoringFinding> {
    set f | f in fs && Eligible(f) && GroupKey(f, text) == key
  }

  ghost function Keys(fs: set<ScoringFinding>, category: ScoringCategory, text: TextServices): set<Key> {
    set f | f in fs && Eligible(f) && f.category == category :: GroupKey(f, text)
  }

  ghost function Ids(ms: set<ScoringFinding>): set<string> {
    set f | f in ms :: f.findingId
  }

  ghost function Ports(ms: set<ScoringFinding>): set<nat> {
    set f | f in ms && f.network.Some? :: f.network.value.port
  }

  /** Distinct ports of a family; an atomic group is one endpoint. */
  ghost function Endpoints(ms: set<ScoringFinding>): nat {
    if Ports(ms) == {} then 1 else |Ports(ms)|
  }

  function Repeat(b: nat, n: nat): seq<nat> {
    if n == 0 then [] else [b] + Repeat(b, n - 1)
  }

  const EMPTY_GROUP := ScoringRiskGroup("", OtherDeterministicRisk, [], Info, Informational, [], 0, 0, 0,
                                        PotentialDeterministicRisk)

  /** The group filed under a key; the placeholder for a key nobody has is never listed. */
  ghost function Group(fs: set<ScoringFinding>, key: Key, text: TextServices): ScoringRiskGroup {
    var ms := Members(fs, key, text);
    if ms == {} then EMPTY_GROUP
    else
      var f :| f in ms;
      var b := AtomicPenalty(f);
      ScoringRiskGroup(StableGroupId(key, text), f.category, Listing(Ids(ms), StrLe), f.severity, f.state,
                       Repeat(b, |ms|), b, FamilyRaw(b, Endpoints(ms)), FamilyApplied(b, Endpoints(ms)),
                       BasisFor(f.category, f.state))
  }

  ghost function GroupList(fs: set<ScoringFinding>, keys: seq<Key>, text: TextServices): seq<ScoringRiskGroup> {
    if keys == [] then [] else [Group(fs, keys[0], text)] + GroupList(fs, keys[1..], text)
  }

  ghost function KeyList(fs: set<ScoringFinding>, category: ScoringCategory, text: TextServices): seq<Key> {
    Listing(Keys(fs, category, text), KeyLe)
  }

  ghost function CategoryGroups(fs: set<ScoringFinding>, category: ScoringCategory,
                                text: TextServices): seq<ScoringRiskGroup>
  {
    GroupList(fs, KeyList(fs, category, text), text)
  }

  lemma {:induction false} GroupListFacts(fs: set<ScoringFinding>, keys: seq<Key>, text: TextServices)
    ensures |GroupList(fs, keys, text)| == |keys|
    ensures forall i :: 0 <= i < |keys| ==> GroupList(fs, keys, text)[i] == Group(fs, keys[i], text)
  {
    hide Group;
    if keys != [] { GroupListFacts(fs, keys[1..], text); }
  }

  lemma KeyListFacts(fs: set<ScoringFinding>, category: ScoringCategory, text: TextServices)
    ensures Distinct(KeyList(fs, category, text))
    ensures forall k :: k in KeyList(fs, category, text) <==> k in Keys(fs, category, text)
    ensures forall k :: k in Keys(fs, category, text) ==> Members(fs, k, text) != {}
  {
    KeyLeIsTotal();
    ListingFacts(Keys(fs, category, text), KeyLe);
    forall k | k in Keys(fs, category, text) ensures Members(fs, k, text) != {} {
      var f :| f in fs && Eligible(f) && f.category == category && GroupKey(f, text) == k;
      assert f in Members(fs, k, text);
    }
  }

  lemma CategoryLength(fs: set<ScoringFinding>, category: ScoringCategory, text: TextServices)
    ensures |CategoryGroups(fs, category, text)| == |KeyList(fs, category, text)|
  {
    GroupListFacts(fs, KeyList(fs, category, text), text);
  }

  /** The i-th group of a category, and a finding that puts it there. */
  lemma CategoryGroupAt(fs: set<ScoringFinding>, category: ScoringCategory, text: TextServices, i: nat)
    returns (f: ScoringFinding)
    requires i < |KeyList(fs, category, text)|
    ensures |CategoryGroups(fs, category, text)| == |KeyList(fs, category, text)|
    ensures f in fs && Eligible(f) && f.category == category && GroupKey(f, text) == KeyList(fs, category, text)[i]
    ensures f in Members(fs, KeyList(fs, category, text)[i], text)
    ensures KeyList(fs, category, text)[i] in Keys(fs, category, text)
    ensures CategoryGroups(fs, category, text)[i] == Group(fs, KeyList(fs, category, text)[i], text)
  {
    GroupListFacts(fs, KeyList(fs, category, text), text);
    KeyListFacts(fs, category, text);
    hide Group, KeyList, GroupKey, Eligible;
    var k := KeyList(fs, category, text)[i];
    assert k in KeyList(fs, category, text);
    f :| f in fs && Eligible(f) && f.category == category && GroupKey(f, text) == k;
  }

  const CATEGORIES: seq<ScoringCategory> := [NetworkExposure, FirewallPosture, OtherDeterministicRisk]

  function BreakdownOf(groups: seq<ScoringRiskGroup>, category: ScoringCategory): CategoryBreakdown {
    var applied := SumBy(Capped(groups, category), Applied);
    var raw := SumBy(groups, Raw);
    CategoryBreakdown(category, raw, applied, applied < raw)
  }

  ghost function Contributors(fs: set<ScoringFinding>, text: TextServices): seq<ScoringRiskGroup> {
    Capped(CategoryGroups(fs, NetworkExposure, text), NetworkExposure)
    + Capped(CategoryGroups(fs, FirewallPosture, text), FirewallPosture)
    + Capped(CategoryGroups(fs, OtherDeterministicRisk, text), OtherDeterministicRisk)
  }

  function HighestConfirmed(gs: seq<ScoringRiskGroup>): Option<Severity> {
    if gs == [] then None
    else
      var rest := HighestConfirmed(gs[1..]);
      if gs[0].state == Confirmed && (rest.None? || rest.value.Rank() <= gs[0].severity.Rank())
      then Some(gs[0].severity) else rest
  }

  function ConfirmedCritical(g: ScoringRiskGroup): nat {
    if g.state == Confirmed && g.severity == Critical then 1 else 0
  }

  /** The score after the confirmed-severity ceilings. */
  function GuardedScore(categoryPenalty: nat, highest: Option<Severity>, criticals: nat): (score: nat)
    ensures score <= 100
  {
    var base := if categoryPenalty >= 100 then 0 else 100 - categoryPenalty;
    var ceiled :=
      if highest.Some? && ConfirmedCeiling(highest.value).Some?
      then Min(base, ConfirmedCeiling(highest.value).value) else base;
    if criticals >= 2 then Min(ceiled, 20) else ceiled
  }

  function RiskLevel(score: nat): string {
    if score >= 90 then "LOW" else if score >= 75 then "MODERATE" else if score >= 50 then "HIGH" else "CRITICAL"
  }

  const COUNT_ORDER: seq<Severity> := [Critical, High, Medium, Low, Info]

  ghost function WithSeverity(fs: set<ScoringFinding>, s: Severity): set<ScoringFinding> {
    set f | f in fs && f.severity == s
  }

  ghost function CountOf(fs: set<ScoringFinding>, s: Severity): (Severity, nat) {
    (s, |WithSeverity(fs, s)|)
  }

  ghost function ScoreOf(fs: set<ScoringFinding>, text: TextServices): ScoringResult {
    var contributors := Contributors(fs, text);
    var network := BreakdownOf(CategoryGroups(fs, NetworkExposure, text), NetworkExposure);
    var firewall := BreakdownOf(CategoryGroups(fs, FirewallPosture, text), FirewallPosture);
    var other := BreakdownOf(CategoryGroups(fs, OtherDeterministicRisk, text), OtherDeterministicRisk);
    var highest := HighestConfirmed(contributors);
    var score := GuardedScore(network.appliedPenalty + firewall.appliedPenalty + other.appliedPenalty,
                              highest, SumBy(contributors, ConfirmedCritical));
    ScoringResult(score, RiskLevel(score),
                  [CountOf(fs, Critical), CountOf(fs, High), CountOf(fs, Medium), CountOf(fs, Low), CountOf(fs, Info)],
                  100 - score, [network, firewall, other], Sort(contributors, GroupIdLe), highest)
  }

  // ----- a key determines what its members share

  lemma ValuesAreInjective()
    ensures forall a: ScoringCategory, b: ScoringCategory :: a.Value() == b.Value() ==> a == b
    ensures forall a: Severity, b: Severity :: a.Value() == b.Value() ==> a == b
    ensures forall a: AssessmentState, b: AssessmentState :: a.Value() == b.Value() ==> a == b
  {
    forall a: ScoringCategory, b: ScoringCategory | a.Value() == b.Value() ensures a == b {
      assert a.Value()[0] == b.Value()[0];
    }
    forall a: Severity, b: Severity | a.Value() == b.Value() ensures a == b {
      assert a.Value()[0] == b.Value()[0];
    }
    forall a: AssessmentState, b: AssessmentState | a.Value() == b.Value() ensures a == b {
      assert |a.Value()| == |b.Value()| && a.Value()[0] == b.Value()[0] && a.Value()[2] == b.Value()[2];
    }
  }

  /** Findings with equal keys agree on category, severity and state; atomic ones are equal. */
  lemma MembersAgree(f: ScoringFinding, g: ScoringFinding, text: TextServices)
    requires f.Valid(text) && g.Valid(text) && GroupKey(f, text) == GroupKey(g, text)
    ensures f.category == g.category
    ensures f.category == NetworkExposure ==> f.severity == g.severity && f.state == g.state
    ensures f.category != NetworkExposure ==> f.findingId == g.findingId
  {
    var a, b := GroupKey(f, text), GroupKey(g, text);
    ValuesAreInjective();
    assert a[0] == b[0];
    assert |a| == 8 ==> a[6] == b[6] && a[7] == b[7];
    assert |a| == 3 ==> a[2] == b[2];
  }

  /** What a group says does not depend on which member speaks for it. */
  lemma GroupFacts(fs: set<ScoringFinding>, key: Key, f: ScoringFinding, text: TextServices)
    requires ValidFindings(fs, text) && f in Members(fs, key, text)
    ensures var g := Group(fs, key, text);
      && g.category == f.category && g.severity == f.severity && g.state == f.state
      && g.basePenalty == AtomicPenalty(f)
      && g.rawPenalty == FamilyRaw(AtomicPenalty(f), Endpoints(Members(fs, key, text)))
      && g.appliedPenalty == FamilyApplied(AtomicPenalty(f), Endpoints(Members(fs, key, text)))
      && g.basis == BasisFor(f.category, f.state)
      && g.atomicPenalties == Repeat(AtomicPenalty(f), |Members(fs, key, text)|)
  {
    forall h | h in Members(fs, key, text)
      ensures h.category == f.category && h.severity == f.severity && h.state == f.state
    {
      MembersAgree(f, h, text);
    }
  }

  lemma GroupIdentity(fs: set<ScoringFinding>, key: Key, text: TextServices)
    requires Members(fs, key, text) != {}
    ensures Group(fs, key, text).groupId == StableGroupId(key, text)
    ensures Group(fs, key, text).findingIds == Listing(Ids(Members(fs, key, text)), StrLe)
  {
  }

  lemma SubjectIsNulFree(id: NetworkScoringIdentity, text: TextServices)
    requires text.Valid() && id.Valid(text)
    ensures NulFree(NormalizedSubject(id, text)) && NulFree(id.protocol)
  {
    DecimalNonEmpty(id.port);
    if id.applicationIdentity.Some? {
      text.BoundedTextIsNulFree(id.applicationIdentity.value, MAX_SCORING_TEXT_LENGTH);
    }
    if id.processBasename.Some? {
      text.BoundedTextIsNulFree(id.processBasename.value, MAX_SCORING_TEXT_LENGTH);
    }
  }

  lemma CategoryValueIsNulFree(c: ScoringCategory)
    ensures NulFree(c.Value())
  {
  }

  lemma SeverityValueIsNulFree(s: Severity)
    ensures NulFree(s.Value())
  {
  }

  lemma StateValueIsNulFree(s: AssessmentState)
    ensures NulFree(s.Value())
  {
  }

  lemma ExposureValueIsNulFree(b: BindExposure)
    ensures NulFree(b.Value())
  {
  }

  lemma ReachabilityValueIsNulFree(r: RemoteReachabilityState)
    ensures NulFree(r.Value())
  {
  }

  lemma KeyIsNulFree(f: ScoringFinding, text: TextServices)
    requires text.Valid() && f.Valid(text)
    ensures AllNulFree(GroupKey(f, text)) && GroupKey(f, text) != []
  {
    text.BoundedTextIsNulFree(f.findingId, MAX_SCORING_FINDING_ID_LENGTH);
    text.BoundedTextIsNulFree(f.source, MAX_SCORING_TEXT_LENGTH);
    CategoryValueIsNulFree(f.category);
    if f.network.Some? {
      SubjectIsNulFree(f.network.value, text);
      SeverityValueIsNulFree(f.severity);
      StateValueIsNulFree(f.state);
      ExposureValueIsNulFree(f.network.value.bindExposure);
      ReachabilityValueIsNulFree(f.network.value.reachability);
    }
    hide NulFree;
  }

  /** Groups with different keys have different ids. */
  lemma GroupIdsDiffer(fs: set<ScoringFinding>, f: ScoringFinding, g: ScoringFinding, text: TextServices)
    requires DigestsApart(fs, text) && f in fs && g in fs && Eligible(f) && Eligible(g)
    requires f.Valid(text) && g.Valid(text)
    requires StableGroupId(GroupKey(f, text), text) == StableGroupId(GroupKey(g, text), text)
    ensures GroupKey(f, text) == GroupKey(g, text)
  {
    KeyIsNulFree(f, text);
    KeyIsNulFree(g, text);
    hide GroupKey, NulJoin, AllNulFree;
    text.OpaqueIdInjective(GroupTexts(fs, text), "score-group", GroupKey(f, text), GroupKey(g, text));
  }
}
