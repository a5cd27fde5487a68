/** Exactly when a computed score can be stored, and what goes wrong otherwise. */
module ScoringSerialization {
  import opened Common
  import opened Orders
  import opened Text
  import opened Vocabulary
  import opened ScoringContracts
  import opened ScoringPenalties
  import opened ScoringModel
  import opened ScoringLaws

  import opened ScoringReport
  import ScoringEngine

  // ----- closed values survive the round trip

  lemma ParseInvertsValue()
    ensures forall c: ScoringCategory :: ParseCategory(c.Value()) == Some(c)
    ensures forall s: Severity :: ParseSeverity(s.Value()) == Some(s)
    ensures forall s: AssessmentState :: ParseState(s.Value()) == Some(s)
    ensures forall b: ScoringBasisCode :: ParseBasis(b.Value()) == Some(b)
  {
    ValuesAreInjective();
    BasisValuesAreInjective();
    hide ScoringCategory.Value, Severity.Value, AssessmentState.Value, ScoringBasisCode.Value;
  }

  lemma BasisValuesAreInjective()
    ensures forall a: ScoringBasisCode, b: ScoringBasisCode :: a.Value() == b.Value() ==> a == b
  {
    forall a: ScoringBasisCode, b: ScoringBasisCode | a.Value() == b.Value() ensures a == b {
      assert |a.Value()| == |b.Value()| && a.Value()[0] == b.Value()[0];
    }
  }

  // ----- texts

  /** No format character: the one text rule the validator adds to the engine's. */
  predicate Plain(s: string, text: TextServices) {
    forall c :: c in s ==> !text.isFormat(c)
  }

  lemma BoundedReportText(s: string, maximum: nat, text: TextServices)
    requires text.BoundedText(s, maximum)
    ensures ReportText(s, maximum, text) <==> Plain(s, text)
    ensures text.Strip(s) == s
  {
  }

  lemma GroupIdIsReportText(key: Key, text: TextServices)
    requires text.Valid()
    ensures ReportText(StableGroupId(key, text), MAX_SCORING_TEXT_LENGTH, text)
    ensures text.Strip(StableGroupId(key, text)) == StableGroupId(key, text)
  {
    var hex := text.sha256(NulJoin(key));
    var id := StableGroupId(key, text);
    assert IsHexDigest(hex);
    assert id == "score-group" + ":" + hex && |id| == 76;
    forall i | 0 <= i < |id| ensures '!' <= id[i] <= '~' {
      if i >= 12 { assert id[i] == hex[i - 12]; }
    }
    assert text.Strip(id) == id by {
      assert !text.isSpace(id[0]) && !text.isSpace(id[|id| - 1]);
    }
    forall c | c in id ensures !IsControl(c) && !text.isFormat(c) {
      var i :| 0 <= i < |id| && id[i] == c;
      assert '!' <= c <= '~';
    }
  }

  // ----- the shape of a contributor

  lemma {:induction false} IdsCount(ms: set<ScoringFinding>, ids: set<string>)
    requires ids == Ids(ms)
    requires forall f, g :: f in ms && g in ms && f.findingId == g.findingId ==> f == g
    ensures |ids| == |ms|
    decreases |ms|
  {
    if ms != {} {
      var f :| f in ms;
      assert ids - {f.findingId} == Ids(ms - {f});
      IdsCount(ms - {f}, ids - {f.findingId});
    }
  }

  lemma {:induction false} MaxOfRepeat(b: nat, n: nat)
    requires n > 0
    ensures |Repeat(b, n)| == n && MaxInt(Repeat(b, n)) == b
    ensures forall i :: 0 <= i < n ==> Repeat(b, n)[i] == b
  {
    if n > 1 {
      MaxOfRepeat(b, n - 1);
      assert Repeat(b, n)[1..] == Repeat(b, n - 1);
    }
  }

  /** What every contributor satisfies, whatever the findings. */
  ghost predicate WellShaped(g: ScoringRiskGroup, text: TextServices) {
    && (g.state == Confirmed || g.state == Potential)
    && g.basis == BasisFor(g.category, g.state)
    && g.atomicPenalties == Repeat(g.basePenalty, |g.findingIds|)
    && g.findingIds != []
    && g.appliedPenalty <= g.rawPenalty
    && Distinct(g.findingIds) && Sorted(g.findingIds, StrLe)
    && (forall x :: x in g.findingIds ==> text.BoundedText(x, MAX_SCORING_FINDING_ID_LENGTH))
    && (exists key :: g.groupId == StableGroupId(key, text))
  }

  lemma GroupIsWellShaped(fs: set<ScoringFinding>, f: ScoringFinding, text: TextServices)
    requires ValidFindings(fs, text) && f in Members(fs, GroupKey(f, text), text)
    ensures WellShaped(Group(fs, GroupKey(f, text), text), text)
  {
    var key := GroupKey(f, text);
    var ms := Members(fs, key, text);
    GroupFacts(fs, key, f, text);
    ScoringLaws.GroupIds(fs, key, text);
    GroupIdentity(fs, key, text);
    StrLeIsTotal();
    ListingFacts(Ids(ms), StrLe);
    IdsCount(ms, Ids(ms));
    hide Group, GroupKey, TextServices.Strip, Listing, StrLe, Distinct, Sorted;
    forall x | x in Group(fs, key, text).findingIds ensures text.BoundedText(x, MAX_SCORING_FINDING_ID_LENGTH) {
      var m :| m in ms && m.findingId == x;
      assert m.Valid(text);
    }
    assert |Group(fs, key, text).findingIds| == |ms|;
    assert ms != {};
  }

  lemma ContributorIsWellShaped(fs: set<ScoringFinding>, g: ScoringRiskGroup, text: TextServices)
    requires ValidFindings(fs, text) && g in Contributors(fs, text)
    ensures WellShaped(g, text)
  {
    hide Contributors, Group, GroupKey, Members, ValidFindings;
    var f := ContributorHasFinding(fs, g, text);
    GroupIsWellShaped(fs, f, text);
    hide Distinct, Sorted, StrLe;
  }

  /** Sizes, references and format characters decide; everything else always holds. */
  ghost predicate Storable(g: ScoringRiskGroup, reportIds: set<string>, text: TextServices) {
    && |g.findingIds| <= MAX_SCORING_GROUP_MEMBERS
    && Elems(g.findingIds) <= reportIds
    && forall x :: x in g.findingIds ==> Plain(x, text)
  }

  lemma {:induction false} StrippedIsSame(ids: seq<string>, text: TextServices)
    requires forall x :: x in ids ==> text.BoundedText(x, MAX_SCORING_FINDING_ID_LENGTH)
    ensures Stripped(ids, text) == ids
  {
    forall i | 0 <= i < |ids| ensures Stripped(ids, text)[i] == ids[i] {
      assert ids[i] in ids;
    }
  }

  lemma ReferencesStored(g: ScoringRiskGroup, reportIds: set<string>, text: TextServices)
    requires WellShaped(g, text)
    ensures ReferencesOk(g.findingIds, reportIds, text) <==> Storable(g, reportIds, text)
    ensures Stripped(g.findingIds, text) == g.findingIds
  {
    hide Sorted, StrLe, Plain, ReportText;
    StrippedIsSame(g.findingIds, text);
    forall x | x in g.findingIds ensures ReportText(x, MAX_SCORING_FINDING_ID_LENGTH, text) <==> Plain(x, text) {
      BoundedReportText(x, MAX_SCORING_FINDING_ID_LENGTH, text);
    }
  }

  lemma StoredContributorOk(g: ScoringRiskGroup, reportIds: set<string>, text: TextServices)
    requires text.Valid() && WellShaped(g, text)
    ensures ContributorOk(StoreContributor(g), reportIds, text) <==> Storable(g, reportIds, text)
    ensures text.Strip(g.groupId) == g.groupId
  {
    ReferencesStored(g, reportIds, text);
    var key :| g.groupId == StableGroupId(key, text);
    GroupIdIsReportText(key, text);
    ParseInvertsValue();
    MaxOfRepeat(g.basePenalty, |g.findingIds|);
    hide ReferencesOk, Storable, ReportText, StableGroupId, Repeat, ParseCategory, ParseSeverity, ParseState,
      ParseBasis;
  }

  // ----- contributors as a whole

  ghost predicate AllStorable(gs: seq<ScoringRiskGroup>, reportIds: set<string>, text: TextServices) {
    forall g :: g in gs ==> Storable(g, reportIds, text)
  }

  /** A sorted contributor list whose groups cite disjoint findings. */
  ghost predicate WellListed(gs: seq<ScoringRiskGroup>, text: TextServices) {
    && (forall g :: g in gs ==> WellShaped(g, text))
    && (forall i, j :: 0 <= i < j < |gs| ==> gs[i].groupId != gs[j].groupId)
    && (forall i, j :: 0 <= i < j < |gs| ==> StrLe(gs[i].groupId, gs[j].groupId))
    && (forall i, j :: 0 <= i < j < |gs| ==> Elems(gs[i].findingIds) !! Elems(gs[j].findingIds))
  }

  lemma SortedContributorsAreWellListed(fs: set<ScoringFinding>, text: TextServices)
    requires DigestsApart(fs, text) && ValidFindings(fs, text)
    ensures WellListed(Sort(Contributors(fs, text), GroupIdLe), text)
    ensures forall g :: g in Sort(Contributors(fs, text), GroupIdLe) <==> g in Contributors(fs, text)
  {
    hide Contributors, Sort, StrLe, WellShaped, ValidFindings;
    var cs := Contributors(fs, text);
    var gs := Sort(cs, GroupIdLe);
    ContributorIdsDistinct(fs, text);
    SortIsPermutation(cs, GroupIdLe);
    OrderKeepsIds(cs, gs);
    SortedById(cs);
    forall g | g in gs ensures WellShaped(g, text) {
      ContributorIsWellShaped(fs, g, text);
    }
    forall i, j, x | 0 <= i < j < |gs| && x in gs[i].findingIds ensures x !in gs[j].findingIds {
      if x in gs[j].findingIds { CitedTwice(fs, gs[i], gs[j], x, text); }
    }
  }

  lemma SortedById(cs: seq<ScoringRiskGroup>)
    ensures var gs := Sort(cs, GroupIdLe);
      forall i, j :: 0 <= i < j < |gs| ==> StrLe(gs[i].groupId, gs[j].groupId)
  {
    hide StrLe, Sort;
    AllocatedBeforeIsPreorder();
    SortIsSorted(cs, GroupIdLe);
    hide Preorder;
    var gs := Sort(cs, GroupIdLe);
    forall i, j | 0 <= i < j < |gs| ensures StrLe(gs[i].groupId, gs[j].groupId) {
      assert GroupIdLe(gs[i], gs[j]);
    }
  }

  /** What storing keeps of each contributor. */
  ghost predicate StoredAs(cs: seq<StoredContributor>, gs: seq<ScoringRiskGroup>, text: TextServices) {
    && |cs| == |gs|
    && (forall i :: 0 <= i < |gs| ==> text.Strip(cs[i].groupId) == gs[i].groupId)
    && (forall i :: 0 <= i < |gs| ==> Stripped(cs[i].findingIds, text) == gs[i].findingIds)
  }

  lemma StoringKeeps(gs: seq<ScoringRiskGroup>, reportIds: set<string>, text: TextServices)
    requires text.Valid() && WellListed(gs, text)
    ensures StoredAs(StoreContributors(gs), gs, text)
    ensures forall i :: 0 <= i < |gs| ==>
      (ContributorOk(StoreContributors(gs)[i], reportIds, text) <==> Storable(gs[i], reportIds, text))
  {
    hide StrLe, Storable, ContributorOk, WellShaped, Stripped, TextServices.Strip, TextServices.Valid, Elems;
    forall i | 0 <= i < |gs|
      ensures ContributorOk(StoreContributors(gs)[i], reportIds, text) <==> Storable(gs[i], reportIds, text)
      ensures text.Strip(StoreContributors(gs)[i].groupId) == gs[i].groupId
      ensures Stripped(StoreContributors(gs)[i].findingIds, text) == gs[i].findingIds
    {
      assert gs[i] in gs;
      StoredContributorOk(gs[i], reportIds, text);
      ReferencesStored(gs[i], reportIds, text);
    }
  }

  lemma StoredPairwise(cs: seq<StoredContributor>, gs: seq<ScoringRiskGroup>, text: TextServices)
    requires StoredAs(cs, gs, text) && WellListed(gs, text)
    ensures forall i, j :: 0 <= i < j < |cs| ==> text.Strip(cs[i].groupId) != text.Strip(cs[j].groupId)
    ensures forall i, j :: 0 <= i < j < |cs| ==> StrLe(text.Strip(cs[i].groupId), text.Strip(cs[j].groupId))
    ensures forall i, j :: 0 <= i < j < |cs| ==>
      Elems(Stripped(cs[i].findingIds, text)) !! Elems(Stripped(cs[j].findingIds, text))
  {
    hide StrLe, WellShaped, Stripped, TextServices.Strip, Elems;
  }

  lemma StoredContributorsOk(gs: seq<ScoringRiskGroup>, reportIds: set<string>, text: TextServices)
    requires text.Valid() && WellListed(gs, text)
    ensures ContributorsOk(StoreContributors(gs), reportIds, text)
      <==> |gs| <= MAX_SCORING_CONTRIBUTORS && AllStorable(gs, reportIds, text)
  {
    hide StrLe, Storable, ContributorOk, WellShaped, WellListed, Stripped, StoreContributors, TextServices.Strip, Elems;
    StoringKeeps(gs, reportIds, text);
    StoredPairwise(StoreContributors(gs), gs, text);
    hide StoredAs;
    if AllStorable(gs, reportIds, text) {
      forall i | 0 <= i < |gs| ensures ContributorOk(StoreContributors(gs)[i], reportIds, text) {
        assert Storable(gs[i], reportIds, text);
      }
    }
    if ContributorsOk(StoreContributors(gs), reportIds, text) {
      forall g | g in gs ensures Storable(g, reportIds, text) {
        var i :| 0 <= i < |gs| && gs[i] == g;
        assert ContributorOk(StoreContributors(gs)[i], reportIds, text);
      }
    }
  }

  // ----- totals

  function RawOf(c: ScoringCategory): ScoringRiskGroup -> nat {
    (g: ScoringRiskGroup) => if g.category == c then g.rawPenalty else 0
  }

  function AppliedOf(c: ScoringCategory): ScoringRiskGroup -> nat {
    (g: ScoringRiskGroup) => if g.category == c then g.appliedPenalty else 0
  }

  lemma {:induction false} StoredTotals(gs: seq<ScoringRiskGroup>, c: ScoringCategory)
    ensures RawIn(StoreContributors(gs), c.Value()) == SumBy(gs, RawOf(c))
    ensures AppliedIn(StoreContributors(gs), c.Value()) == SumBy(gs, AppliedOf(c))
  {
    if gs != [] {
      StoredTotals(gs[1..], c);
      ValuesAreInjective();
      assert StoreContributors(gs)[1..] == StoreContributors(gs[1..]);
    }
  }

  lemma {:induction false} SumInCategory(gs: seq<ScoringRiskGroup>, c: ScoringCategory, d: ScoringCategory)
    requires forall g :: g in gs ==> g.category == c
    ensures SumBy(gs, RawOf(d)) == if c == d then SumBy(gs, Raw) else 0
    ensures SumBy(gs, AppliedOf(d)) == if c == d then SumBy(gs, Applied) else 0
  {
    if gs != [] {
      assert gs[0] in gs;
      SumInCategory(gs[1..], c, d);
    }
  }

  lemma {:induction false} GrantKeepsRaw(order: seq<ScoringRiskGroup>, p: nat, c: nat)
    ensures SumBy(Grant(order, p, c), Raw) == SumBy(order, Raw)
  {
    if order != [] {
      GrantKeepsRaw(order[1..], PotentialLeftAfter(order[0], p), c - Min(Available(order[0], p), c));
    }
  }

  lemma CappedKeepsRaw(groups: seq<ScoringRiskGroup>, c: ScoringCategory)
    ensures SumBy(Capped(groups, c), Raw) == SumBy(groups, Raw)
  {
    hide Sort, Grant;
    var order := Sort(groups, AllocatedBefore);
    SortPreservesSum(groups, AllocatedBefore, Raw);
    GrantKeepsRaw(order, PotentialCap(c), TotalCap(c));
    SortPreservesSum(Grant(order, PotentialCap(c), TotalCap(c)), GroupIdLe, Raw);
  }

  lemma CategorySums(fs: set<ScoringFinding>, c: ScoringCategory, d: ScoringCategory, text: TextServices)
    requires ValidFindings(fs, text)
    ensures var b := BreakdownOf(CategoryGroups(fs, c, text), c);
      && SumBy(Capped(CategoryGroups(fs, c, text), c), RawOf(d)) == (if c == d then b.rawPenalty else 0)
      && SumBy(Capped(CategoryGroups(fs, c, text), c), AppliedOf(d)) == (if c == d then b.appliedPenalty else 0)
  {
    forall g | g in Capped(CategoryGroups(fs, c, text), c) ensures g.category == c {
      CappedCategory(fs, c, g, text);
    }
    hide Capped, CategoryGroups, SumBy, ValidFindings;
    SumInCategory(Capped(CategoryGroups(fs, c, text), c), c, d);
    CappedKeepsRaw(CategoryGroups(fs, c, text), c);
  }

  lemma ContributorTotals(fs: set<ScoringFinding>, d: ScoringCategory, text: TextServices)
    requires ValidFindings(fs, text)
    ensures var b := BreakdownOf(CategoryGroups(fs, d, text), d);
      && RawIn(StoreContributors(Sort(Contributors(fs, text), GroupIdLe)), d.Value()) == b.rawPenalty
      && AppliedIn(StoreContributors(Sort(Contributors(fs, text), GroupIdLe)), d.Value()) == b.appliedPenalty
  {
    hide Capped, CategoryGroups, SumBy, Sort, BreakdownOf, ValidFindings, RawIn, AppliedIn, StoreContributors, RawOf,
      AppliedOf;
    var n := Capped(CategoryGroups(fs, NetworkExposure, text), NetworkExposure);
    var w := Capped(CategoryGroups(fs, FirewallPosture, text), FirewallPosture);
    var o := Capped(CategoryGroups(fs, OtherDeterministicRisk, text), OtherDeterministicRisk);
    StoredTotals(Sort(Contributors(fs, text), GroupIdLe), d);
    SortPreservesSum(Contributors(fs, text), GroupIdLe, RawOf(d));
    SortPreservesSum(Contributors(fs, text), GroupIdLe, AppliedOf(d));
    SumByConcat(n, w, RawOf(d));
    SumByConcat(n + w, o, RawOf(d));
    SumByConcat(n, w, AppliedOf(d));
    SumByConcat(n + w, o, AppliedOf(d));
    CategorySums(fs, NetworkExposure, d, text);
    CategorySums(fs, FirewallPosture, d, text);
    CategorySums(fs, OtherDeterministicRisk, d, text);
  }

  ghost function Breakdowns(fs: set<ScoringFinding>, text: TextServices): seq<CategoryBreakdown> {
    [BreakdownOf(CategoryGroups(fs, NetworkExposure, text), NetworkExposure),
     BreakdownOf(CategoryGroups(fs, FirewallPosture, text), FirewallPosture),
     BreakdownOf(CategoryGroups(fs, OtherDeterministicRisk, text), OtherDeterministicRisk)]
  }

  lemma {:induction false} AppliedAtMostRaw(gs: seq<ScoringRiskGroup>)
    requires forall g :: g in gs ==> g.appliedPenalty <= g.rawPenalty
    ensures SumBy(gs, Applied) <= SumBy(gs, Raw)
  {
    if gs != [] {
      assert gs[0] in gs;
      AppliedAtMostRaw(gs[1..]);
    }
  }

  lemma BreakdownIsSane(fs: set<ScoringFinding>, c: ScoringCategory, text: TextServices)
    requires ValidFindings(fs, text)
    ensures var b := BreakdownOf(CategoryGroups(fs, c, text), c); b.category == c && b.appliedPenalty <= b.rawPenalty
  {
    var gs := Capped(CategoryGroups(fs, c, text), c);
    CappedKeepsRaw(CategoryGroups(fs, c, text), c);
    forall g | g in gs ensures g.appliedPenalty <= g.rawPenalty {
      CappedContributes(fs, c, g, text);
      ContributorIsWellShaped(fs, g, text);
    }
    AppliedAtMostRaw(gs);
    hide Capped, CategoryGroups, SumBy, ValidFindings;
  }

  lemma StoredCategoriesOk(fs: set<ScoringFinding>, text: TextServices)
    requires ValidFindings(fs, text)
    ensures CategoriesOk(StoreCategories(Breakdowns(fs, text)))
    ensures TotalsOk(StoreCategories(Breakdowns(fs, text)), StoreContributors(Sort(Contributors(fs, text), GroupIdLe)))
    ensures AppliedTotal(StoreCategories(Breakdowns(fs, text))) == CategoryTotal(Breakdowns(fs, text))
      == TotalCharge(fs, text)
  {
    hide BreakdownOf, CategoryGroups, Contributors, Sort, ValidFindings, RawIn, AppliedIn, StoreContributors,
      ParseCategory, ChargedTotal;
    BreakdownIsSane(fs, NetworkExposure, text);
    BreakdownIsSane(fs, FirewallPosture, text);
    BreakdownIsSane(fs, OtherDeterministicRisk, text);
    ContributorTotals(fs, NetworkExposure, text);
    ContributorTotals(fs, FirewallPosture, text);
    ContributorTotals(fs, OtherDeterministicRisk, text);
    BreakdownClosedForm(fs, NetworkExposure, text);
    BreakdownClosedForm(fs, FirewallPosture, text);
    BreakdownClosedForm(fs, OtherDeterministicRisk, text);
    ParseInvertsValue();
    ThreeTotals(Breakdowns(fs, text));
  }

  lemma ThreeTotals(bs: seq<CategoryBreakdown>)
    requires |bs| == 3
    ensures CategoryTotal(bs) == bs[0].appliedPenalty + bs[1].appliedPenalty + bs[2].appliedPenalty
    ensures AppliedTotal(StoreCategories(bs)) == CategoryTotal(bs)
  {
    var cs := StoreCategories(bs);
    assert CategoryTotal(bs[2..]) == bs[2].appliedPenalty && AppliedTotal(cs[2..]) == cs[2].appliedPenalty;
    assert bs[1..][1..] == bs[2..] && cs[1..][1..] == cs[2..];
    assert CategoryTotal(bs[1..]) == bs[1].appliedPenalty + CategoryTotal(bs[2..]);
    assert AppliedTotal(cs[1..]) == cs[1].appliedPenalty + AppliedTotal(cs[2..]);
  }

  // ----- guardrail

  lemma {:induction false} StoredHighest(gs: seq<ScoringRiskGroup>)
    ensures ExpectedHighest(StoreContributors(gs)) == HighestConfirmed(gs)
  {
    if gs != [] {
      StoredHighest(gs[1..]);
      ParseInvertsValue();
      hide ParseSeverity, ParseState;
      assert StoreContributors(gs)[1..] == StoreContributors(gs[1..]);
    }
  }

  lemma HighestForgetsOrder(a: seq<ScoringRiskGroup>, b: seq<ScoringRiskGroup>)
    requires forall g :: g in a <==> g in b
    ensures HighestConfirmed(a) == HighestConfirmed(b)
  {
    HighestFacts(a);
    HighestFacts(b);
    hide HighestConfirmed;
  }

  lemma StoredGuardrailOk(r: ScoringResult, penalty: nat, criticals: nat)
    requires r.totalPenalty == 100 - r.score && r.score == GuardedScore(penalty, r.highestConfirmed, criticals)
    requires CategoryTotal(r.categories) == penalty == AppliedTotal(StoreCategories(r.categories))
    requires ExpectedHighest(StoreContributors(r.contributors)) == r.highestConfirmed
    ensures GuardrailOk(GuardrailOf(r), r.score, StoreCategories(r.categories), StoreContributors(r.contributors),
                        r.totalPenalty)
      <==> penalty <= 100
  {
    ParseInvertsValue();
    hide ParseSeverity, CategoryTotal, AppliedTotal, StoreCategories, StoreContributors, ExpectedHighest;
  }

  // ----- the main result

  /** The references and sizes a caller can check on its findings before scoring. */
  ghost predicate ReportCanCite(fs: set<ScoringFinding>, reportIds: set<string>, text: TextServices) {
    forall f :: f in fs && Eligible(f) ==>
      f.findingId in reportIds && Plain(f.findingId, text)
      && |Members(fs, GroupKey(f, text), text)| <= MAX_SCORING_GROUP_MEMBERS
  }

  lemma StorableMeans(fs: set<ScoringFinding>, text: TextServices, reportIds: set<string>)
    requires ValidFindings(fs, text)
    ensures AllStorable(Contributors(fs, text), reportIds, text) <==> ReportCanCite(fs, reportIds, text)
  {
    hide Contributors, Group, GroupKey, Plain;
    if ReportCanCite(fs, reportIds, text) {
      forall g | g in Contributors(fs, text) ensures Storable(g, reportIds, text) {
        CiteableIsStorable(fs, g, reportIds, text);
      }
    }
    if AllStorable(Contributors(fs, text), reportIds, text) {
      forall f | f in fs && Eligible(f)
        ensures f.findingId in reportIds && Plain(f.findingId, text)
        ensures |Members(fs, GroupKey(f, text), text)| <= MAX_SCORING_GROUP_MEMBERS
      {
        var g := FindingHasContributor(fs, f, text);
        MemberIds(fs, f, text);
        assert f.findingId in g.findingIds;
      }
    }
  }

  lemma MemberIds(fs: set<ScoringFinding>, f: ScoringFinding, text: TextServices)
    requires ValidFindings(fs, text) && f in Members(fs, GroupKey(f, text), text)
    ensures var ids := Group(fs, GroupKey(f, text), text).findingIds;
      && |ids| == |Members(fs, GroupKey(f, text), text)|
      && (forall x :: x in ids <==> x in Ids(Members(fs, GroupKey(f, text), text)))
      && f.findingId in ids
  {
    hide Group, GroupKey, Eligible, Listing, StrLe;
    var ms := Members(fs, GroupKey(f, text), text);
    ScoringLaws.GroupIds(fs, GroupKey(f, text), text);
    GroupIdentity(fs, GroupKey(f, text), text);
    IdsCount(ms, Ids(ms));
    StrLeIsTotal();
    ListingFacts(Ids(ms), StrLe);
  }

  lemma CiteableIsStorable(fs: set<ScoringFinding>, g: ScoringRiskGroup, reportIds: set<string>, text: TextServices)
    requires ValidFindings(fs, text) && ReportCanCite(fs, reportIds, text) && g in Contributors(fs, text)
    ensures Storable(g, reportIds, text)
  {
    hide Contributors, Group, GroupKey, Plain;
    var f := ContributorHasFinding(fs, g, text);
    MemberIds(fs, f, text);
    forall x | x in g.findingIds ensures x in reportIds && Plain(x, text) {
      var m :| m in Members(fs, GroupKey(f, text), text) && m.findingId == x;
      assert m in fs && Eligible(m);
    }
  }

  lemma HeaderStored(r: ScoringResult, text: TextServices)
    requires text.Valid() && r.score <= 100 && r.totalPenalty == 100 - r.score && r.riskLevel == RiskLevel(r.score)
    requires |r.counts| == 5 && forall i :: 0 <= i < 5 ==> r.counts[i].0 == COUNT_ORDER[i]
    ensures HeaderOk(Store(r), text)
  {
    RiskLevelIsText(r.score, text);
    CountsStored(r.counts);
    hide RiskLevel, ReportText, StoreCounts, GuardrailOf, StoreCategories, StoreContributors, TextServices.Strip;
  }

  lemma RiskLevelIsText(score: nat, text: TextServices)
    requires text.Valid()
    ensures ReportText(RiskLevel(score), 32, text) && text.Strip(RiskLevel(score)) in RISK_LEVELS
  {
    var s := RiskLevel(score);
    assert forall i :: 0 <= i < |s| ==> 'A' <= s[i] <= 'Z';
    assert text.Strip(s) == s by {
      assert !text.isSpace(s[0]) && !text.isSpace(s[|s| - 1]);
    }
    forall c | c in s ensures !IsControl(c) && !text.isFormat(c) {
      var i :| 0 <= i < |s| && s[i] == c;
    }
  }

  lemma {:induction false} CountsStored(counts: seq<(Severity, nat)>)
    ensures StoreCounts(counts).Keys <= SEVERITY_NAMES
    ensures forall k :: k in StoreCounts(counts) ==> StoreCounts(counts)[k] >= 0
  {
    if counts != [] {
      CountsStored(counts[..|counts| - 1]);
      assert counts[|counts| - 1].0.Value() in SEVERITY_NAMES;
    }
  }

  lemma ScoreHeader(fs: set<ScoringFinding>, text: TextServices)
    ensures var r := ScoreOf(fs, text);
      && r.score <= 100 && r.totalPenalty == 100 - r.score && r.riskLevel == RiskLevel(r.score)
      && |r.counts| == 5 && (forall i :: 0 <= i < 5 ==> r.counts[i].0 == COUNT_ORDER[i])
      && r.contributors == Sort(Contributors(fs, text), GroupIdLe)
      && r.categories == Breakdowns(fs, text)
      && r.highestConfirmed == HighestConfirmed(Contributors(fs, text))
  {
    hide Contributors, BreakdownOf, CategoryGroups, HighestConfirmed, RiskLevel, Sort, SumBy, GuardedScore;
  }

  /**
   * A computed score can be stored exactly when its category penalties add up to at most
   * 100, there are at most 4096 groups, and the report can cite every eligible finding.
   */
  lemma StorableExactlyWhen(fs: set<ScoringFinding>, reportIds: set<string>, text: TextServices)
    requires DigestsApart(fs, text) && ValidFindings(fs, text)
    ensures Acceptable(Store(ScoreOf(fs, text)), reportIds, text) <==>
      && TotalCharge(fs, text) <= 100
      && |Contributors(fs, text)| <= MAX_SCORING_CONTRIBUTORS
      && ReportCanCite(fs, reportIds, text)
  {
    ScoreHeader(fs, text);
    var r := ScoreOf(fs, text);
    HeaderStored(r, text);
    GuardrailDecides(fs, text);
    hide ScoreOf, Sort, RiskLevel, Breakdowns, Contributors, ValidFindings, HighestConfirmed, TotalCharge, HeaderOk,
         CategoriesOk, ContributorsOk, TotalsOk, GuardrailOk, ReportCanCite, AllStorable, WellListed, StoreCounts,
         GuardrailOf, StoreCategories, StoreContributors;
    SortIsPermutation(Contributors(fs, text), GroupIdLe);
    SortedContributorsAreWellListed(fs, text);
    StoredContributorsOk(r.contributors, reportIds, text);
    StorableForgetsOrder(r.contributors, Contributors(fs, text), reportIds, text);
    StorableMeans(fs, text, reportIds);
    StoredCategoriesOk(fs, text);
  }

  /** The guardrail the engine derives passes the validator iff the categories cost at most 100. */
  lemma GuardrailDecides(fs: set<ScoringFinding>, text: TextServices)
    requires ValidFindings(fs, text)
    ensures var s := Store(ScoreOf(fs, text));
      GuardrailOk(s.guardrail, s.score, s.categories, s.contributors, s.totalPenalty) <==> TotalCharge(fs, text) <= 100
  {
    ScoreHeader(fs, text);
    var r := ScoreOf(fs, text);
    hide ScoreOf, Sort, RiskLevel, Breakdowns, Contributors, ValidFindings, HighestConfirmed, TotalCharge, CategoriesOk,
         TotalsOk, GuardrailOk, StoreCounts, GuardrailOf, StoreCategories, StoreContributors, CategoryTotal,
         AppliedTotal, ExpectedHighest, Criticals;
    SortIsPermutation(Contributors(fs, text), GroupIdLe);
    SameMembers(r.contributors, Contributors(fs, text));
    StoredCategoriesOk(fs, text);
    ScoreClosedForm(fs, text);
    HighestForgetsOrder(r.contributors, Contributors(fs, text));
    StoredHighest(r.contributors);
    ScoreIsGuarded(fs, text);
    StoredGuardrailOk(r, TotalCharge(fs, text), Criticals(fs, text));
  }

  lemma SameMembers(a: seq<ScoringRiskGroup>, b: seq<ScoringRiskGroup>)
    requires multiset(a) == multiset(b)
    ensures forall g :: g in a <==> g in b
  {
    forall g ensures g in a <==> g in b {
      assert g in a <==> g in multiset(a);
      assert g in b <==> g in multiset(b);
    }
  }

  lemma ScoreIsGuarded(fs: set<ScoringFinding>, text: TextServices)
    requires ValidFindings(fs, text)
    ensures ScoreOf(fs, text).score
      == GuardedScore(TotalCharge(fs, text), ScoreOf(fs, text).highestConfirmed, Criticals(fs, text))
  {
    ScoreClosedForm(fs, text);
    hide ScoreOf, TotalCharge, Criticals, TopConfirmed, ValidFindings;
  }

  lemma StorableForgetsOrder(a: seq<ScoringRiskGroup>, b: seq<ScoringRiskGroup>, reportIds: set<string>,
                             text: TextServices)
    requires forall g :: g in a <==> g in b
    ensures AllStorable(a, reportIds, text) <==> AllStorable(b, reportIds, text)
  {
    hide Storable;
  }

  // ----- scores the engine computes and the validator refuses

  /** A finding id with a format character is scored like any other, and then cannot be stored. */
  lemma FormatCharacterIsRefused(fs: set<ScoringFinding>, f: ScoringFinding, c: char, reportIds: set<string>,
                                 text: TextServices)
    requires ValidFindings(fs, text) && f in fs && Eligible(f) && c in f.findingId && text.isFormat(c)
    ensures !Acceptable(Store(ScoreOf(fs, text)), reportIds, text)
  {
    var r := ScoreOf(fs, text);
    FindingIsValid(fs, f, text);
    BoundedReportText(f.findingId, MAX_SCORING_FINDING_ID_LENGTH, text);
    var g := CitingContributor(fs, f, text);
    ContributorsAreSorted(fs, text);
    hide ScoreOf, Store, Acceptable, Sort, Contributors, ValidFindings, ScoringFinding.Valid, ReportText,
      TextServices.BoundedText;
    SameMembers(r.contributors, Contributors(fs, text));
    if Acceptable(Store(r), reportIds, text) {
      AcceptedIsOk(r, g, reportIds, text);
      CitedIsPlain(g, f.findingId, reportIds, text);
    }
  }

  lemma AcceptedIsOk(r: ScoringResult, g: ScoringRiskGroup, reportIds: set<string>, text: TextServices)
    requires g in r.contributors && Acceptable(Store(r), reportIds, text)
    ensures ContributorOk(StoreContributor(g), reportIds, text)
  {
    hide ContributorOk, HeaderOk, CategoriesOk, TotalsOk, GuardrailOk, StoreContributor, Stripped, StrLe;
    var i :| 0 <= i < |r.contributors| && r.contributors[i] == g;
    assert StoreContributors(r.contributors)[i] == StoreContributor(g);
  }

  lemma FindingIsValid(fs: set<ScoringFinding>, f: ScoringFinding, text: TextServices)
    requires ValidFindings(fs, text) && f in fs
    ensures f.Valid(text) && text.BoundedText(f.findingId, MAX_SCORING_FINDING_ID_LENGTH)
  {
  }

  lemma CitedIsPlain(g: ScoringRiskGroup, x: string, reportIds: set<string>, text: TextServices)
    requires ContributorOk(StoreContributor(g), reportIds, text) && x in g.findingIds
    ensures ReportText(x, MAX_SCORING_FINDING_ID_LENGTH, text)
  {
    hide ReportText, ClosedValuesOk, PenaltiesOk, Stripped, Sorted, Distinct;
    var j :| 0 <= j < |g.findingIds| && g.findingIds[j] == x;
  }

  /** Findings whose categories cost more than 100 points in all have no storable score. */
  lemma CostlyIsRefused(fs: set<ScoringFinding>, reportIds: set<string>, text: TextServices)
    requires ValidFindings(fs, text) && TotalCharge(fs, text) > 100
    ensures !Acceptable(Store(ScoreOf(fs, text)), reportIds, text)
  {
    GuardrailDecides(fs, text);
    hide ScoreOf, Store, TotalCharge, HeaderOk, CategoriesOk, ContributorsOk, TotalsOk, GuardrailOk;
  }

  function RiskFinding(id: string, category: ScoringCategory): ScoringFinding {
    ScoringFinding(id, Critical, Risk, Confirmed, "scan", category, None)
  }

  function FiveCriticals(): set<ScoringFinding> {
    {RiskFinding("a", OtherDeterministicRisk), RiskFinding("b", OtherDeterministicRisk),
     RiskFinding("c", OtherDeterministicRisk), RiskFinding("d", FirewallPosture), RiskFinding("e", FirewallPosture)}
  }

  lemma FiveCriticalsAreValid(text: TextServices)
    requires text.Valid()
    ensures ValidFindings(FiveCriticals(), text)
  {
    forall s | s in ["a", "b", "c", "d", "e", "scan"] ensures text.BoundedText(s, 256) && text.BoundedText(s, 512) {
      assert !text.isSpace(s[0]) && !text.isSpace(s[|s| - 1]);
    }
    hide TextServices.BoundedText;
  }

  lemma CriticalCharge(fs: set<ScoringFinding>, f: ScoringFinding, text: TextServices)
    requires ValidFindings(fs, text) && f in fs
    requires Eligible(f) && f.severity == Critical && f.state == Confirmed && f.category != NetworkExposure
    ensures GroupKey(f, text) in Keys(fs, f.category, text)
    ensures ConfirmedApplied(Group(fs, GroupKey(f, text), text)) == 30
  {
    ScoringEngine.AtomicGroupFacts(fs, f, text);
  }

  lemma ThreeCharges(m: map<Key, nat>, a: Key, b: Key, c: Key)
    requires a in m && b in m && c in m && a != b && b != c && a != c
    ensures SumMap(m) >= m[a] + m[b] + m[c]
  {
    SumMapPick(m, a);
    TwoEntries(m - {a}, b, c);
  }

  /** Three critical other risks and two critical firewall risks: 110 points, so refused. */
  lemma FiveCriticalsAreRefused(reportIds: set<string>, text: TextServices)
    requires text.Valid()
    ensures ValidFindings(FiveCriticals(), text)
    ensures TotalCharge(FiveCriticals(), text) > 100
    ensures !Acceptable(Store(ScoreOf(FiveCriticals(), text)), reportIds, text)
  {
    hide ScoreOf, Store, Acceptable, TotalCharge, FiveCriticals, ValidFindings, Contributors, ReportCanCite;
    FiveCriticalsAreValid(text);
    FiveCriticalsCostTooMuch(text);
    CostlyIsRefused(FiveCriticals(), reportIds, text);
  }

  lemma FiveCriticalsCostTooMuch(text: TextServices)
    requires text.Valid()
    ensures TotalCharge(FiveCriticals(), text) > 100
  {
    hide Charge, FiveCriticals;
    OtherCharge(text);
    FirewallCharge(text);
    assert ChargedTotal(FiveCriticals(), OtherDeterministicRisk, text) == 70;
    assert ChargedTotal(FiveCriticals(), FirewallPosture, text) == 40;
  }

  lemma OtherCharge(text: TextServices)
    requires text.Valid()
    ensures Charge(FiveCriticals(), OtherDeterministicRisk, text, ConfirmedApplied) >= 90
  {
    var fs := FiveCriticals();
    FiveCriticalsAreValid(text);
    var a := RiskFinding("a", OtherDeterministicRisk);
    var b := RiskFinding("b", OtherDeterministicRisk);
    var c := RiskFinding("c", OtherDeterministicRisk);
    CriticalCharge(fs, a, text);
    CriticalCharge(fs, b, text);
    CriticalCharge(fs, c, text);
    hide Group, Keys, FiveCriticals, ValidFindings;
    var x, y, z := GroupKey(a, text), GroupKey(b, text), GroupKey(c, text);
    assert x[2] == "a" && y[2] == "b" && z[2] == "c";
    ThreeCharges(ChargeMap(fs, Keys(fs, OtherDeterministicRisk, text), text, ConfirmedApplied), x, y, z);
  }

  lemma FirewallCharge(text: TextServices)
    requires text.Valid()
    ensures Charge(FiveCriticals(), FirewallPosture, text, ConfirmedApplied) >= 60
  {
    var fs := FiveCriticals();
    FiveCriticalsAreValid(text);
    var d := RiskFinding("d", FirewallPosture);
    var e := RiskFinding("e", FirewallPosture);
    CriticalCharge(fs, d, text);
    CriticalCharge(fs, e, text);
    hide Group, Keys, FiveCriticals, ValidFindings;
    var x, y := GroupKey(d, text), GroupKey(e, text);
    assert x[2] == "d" && y[2] == "e";
    TwoEntries(ChargeMap(fs, Keys(fs, FirewallPosture, text), text, ConfirmedApplied), x, y);
  }
}
