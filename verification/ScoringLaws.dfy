/** What Scoring v2 promises about every set of findings. */
module ScoringLaws {
  import opened Common
  import opened Orders
  import opened Text
  import opened Vocabulary
  import opened ScoringContracts
  import opened ScoringPenalties
  import opened ScoringModel

  // ----- group totals as order-free sums over keys

  ghost function ChargeMap(fs: set<ScoringFinding>, keys: set<Key>, text: TextServices,
                           charge: ScoringRiskGroup -> nat): map<Key, nat>
  {
    map k | k in keys :: charge(Group(fs, k, text))
  }

  /** What the groups of a category are charged in all, before the category caps. */
  ghost function Charge(fs: set<ScoringFinding>, category: ScoringCategory, text: TextServices,
                        charge: ScoringRiskGroup -> nat): nat
  {
    SumMap(ChargeMap(fs, Keys(fs, category, text), text, charge))
  }

  lemma {:induction false} SumOverKeys(fs: set<ScoringFinding>, keys: seq<Key>, text: TextServices,
                                       charge: ScoringRiskGroup -> nat)
    requires Distinct(keys)
    ensures SumBy(GroupList(fs, keys, text), charge) == SumMap(ChargeMap(fs, Elems(keys), text, charge))
  {
    hide Group;
    var m := ChargeMap(fs, Elems(keys), text, charge);
    if keys == [] {
      assert m == map[];
    } else {
      assert keys[0] !in keys[1..];
      assert m - {keys[0]} == ChargeMap(fs, Elems(keys[1..]), text, charge);
      SumOverKeys(fs, keys[1..], text, charge);
      SumMapPick(m, keys[0]);
    }
  }

  /** The listed groups add up to the order-free charge. */
  lemma CategoryCharge(fs: set<ScoringFinding>, category: ScoringCategory, text: TextServices,
                       charge: ScoringRiskGroup -> nat)
    ensures SumBy(CategoryGroups(fs, category, text), charge) == Charge(fs, category, text, charge)
  {
    KeyListFacts(fs, category, text);
    SumOverKeys(fs, KeyList(fs, category, text), text, charge);
    assert Elems(KeyList(fs, category, text)) == Keys(fs, category, text);
  }

  /** A charge that can only rise with the family penalty. */
  ghost predicate RisesWithPenalty(charge: ScoringRiskGroup -> nat) {
    forall g: ScoringRiskGroup, h: ScoringRiskGroup ::
      g.state == h.state && g.severity == h.severity && g.appliedPenalty <= h.appliedPenalty ==> charge(g) <= charge(h)
  }

  lemma ChargeGrows(fs: set<ScoringFinding>, fs': set<ScoringFinding>, category: ScoringCategory,
                    text: TextServices, charge: ScoringRiskGroup -> nat)
    requires fs <= fs' && ValidFindings(fs', text) && RisesWithPenalty(charge)
    ensures Charge(fs, category, text, charge) <= Charge(fs', category, text, charge)
  {
    KeyListFacts(fs, category, text);
    hide Group, Members, GroupKey, Eligible, ValidFindings, KeyList;
    var m := ChargeMap(fs, Keys(fs, category, text), text, charge);
    var m' := ChargeMap(fs', Keys(fs', category, text), text, charge);
    forall k | k in m ensures k in m' && m[k] <= m'[k] {
      GroupGrows(fs, fs', k, text);
    }
    SumMapMonotone(m, m');
  }

  /** New findings can only add ports to a family. */
  lemma GroupGrows(fs: set<ScoringFinding>, fs': set<ScoringFinding>, key: Key, text: TextServices)
    requires fs <= fs' && ValidFindings(fs', text) && Members(fs, key, text) != {}
    ensures Members(fs', key, text) != {}
    ensures Group(fs', key, text).state == Group(fs, key, text).state
    ensures Group(fs', key, text).severity == Group(fs, key, text).severity
    ensures Group(fs, key, text).appliedPenalty <= Group(fs', key, text).appliedPenalty
  {
    hide Group, GroupKey, Eligible;
    var ms, ms' := Members(fs, key, text), Members(fs', key, text);
    var f :| f in ms;
    assert f in ms' && ms <= ms';
    GroupFacts(fs, key, f, text);
    GroupFacts(fs', key, f, text);
    SubsetCardinality(Ports(ms), Ports(ms'));
    assert Ports(ms') != {} ==> |Ports(ms')| >= 1;
    FamilyRawGrows(AtomicPenalty(f), Endpoints(ms), Endpoints(ms'));
  }

  /** A family is priced by its distinct ports: the fourth and later ones, and repeats, add nothing. */
  lemma FamilyPrice(fs: set<ScoringFinding>, f: ScoringFinding, text: TextServices)
    requires ValidFindings(fs, text) && f in fs && Eligible(f) && f.category == NetworkExposure
    ensures var ms := Members(fs, GroupKey(f, text), text);
      var b := AtomicPenalty(f);
      && |Ports(ms)| >= 1
      && Group(fs, GroupKey(f, text), text).appliedPenalty
         == if |Ports(ms)| == 1 then b else if |Ports(ms)| == 2 then b + b / 2 else 14 * b / 8
  {
    var key := GroupKey(f, text);
    var ms := Members(fs, key, text);
    assert f in ms;
    GroupFacts(fs, key, f, text);
    SubsetCardinality({f.network.value.port}, Ports(ms));
    assert IsTableWeight(AtomicPenalty(f)) by {
      assert AtomicPenalty(f) == ConfirmedWeight(f.severity) || AtomicPenalty(f) == PotentialWeight(f.severity);
    }
    FamilyClosedForm(AtomicPenalty(f), |Ports(ms)|);
    hide Group, GroupKey, Eligible, FamilyApplied;
  }

  // ----- contributors and the groups they come from

  ghost predicate SameButApplied(g: ScoringRiskGroup, h: ScoringRiskGroup) {
    g == h.(appliedPenalty := g.appliedPenalty) && g.appliedPenalty <= h.appliedPenalty
  }

  lemma CappedHasGroup(groups: seq<ScoringRiskGroup>, category: ScoringCategory, g: ScoringRiskGroup)
    returns (h: ScoringRiskGroup)
    requires g in Capped(groups, category)
    ensures h in groups && SameButApplied(g, h)
  {
    hide Sort, Grant;
    var order := Sort(groups, AllocatedBefore);
    var granted := Grant(order, PotentialCap(category), TotalCap(category));
    SortIsPermutation(groups, AllocatedBefore);
    SortIsPermutation(granted, GroupIdLe);
    GrantOnlyLowers(order, PotentialCap(category), TotalCap(category));
    var i :| 0 <= i < |granted| && granted[i] == g;
    h := order[i];
  }

  lemma GroupHasCapped(groups: seq<ScoringRiskGroup>, category: ScoringCategory, h: ScoringRiskGroup)
    returns (g: ScoringRiskGroup)
    requires h in groups
    ensures g in Capped(groups, category) && SameButApplied(g, h)
  {
    hide Sort, Grant;
    var order := Sort(groups, AllocatedBefore);
    var granted := Grant(order, PotentialCap(category), TotalCap(category));
    SortIsPermutation(groups, AllocatedBefore);
    SortIsPermutation(granted, GroupIdLe);
    GrantOnlyLowers(order, PotentialCap(category), TotalCap(category));
    var i :| 0 <= i < |order| && order[i] == h;
    g := granted[i];
  }

  /** Of two capped groups, the one allocated first was served in full if the other got anything. */
  lemma CappedByPriority(groups: seq<ScoringRiskGroup>, category: ScoringCategory, g: ScoringRiskGroup,
                         h: ScoringRiskGroup) returns (full: ScoringRiskGroup)
    requires g in Capped(groups, category) && h in Capped(groups, category)
    requires !AllocatedBefore(h, g) && (g.state != Potential || h.state == Potential) && h.appliedPenalty > 0
    ensures full in groups && g == full
  {
    hide Sort, Grant, StrLe;
    var order := Sort(groups, AllocatedBefore);
    var granted := Grant(order, PotentialCap(category), TotalCap(category));
    SortIsPermutation(groups, AllocatedBefore);
    AllocatedBeforeIsPreorder();
    SortIsSorted(groups, AllocatedBefore);
    SortIsPermutation(granted, GroupIdLe);
    GrantOnlyLowers(order, PotentialCap(category), TotalCap(category));
    hide Preorder;
    var i :| 0 <= i < |granted| && granted[i] == g;
    var j :| 0 <= j < |granted| && granted[j] == h;
    full := order[i];
    if i < j {
      GrantIsGreedy(order, PotentialCap(category), TotalCap(category), i, j);
    } else {
      AllocationIsReflexive(order[j]);
      assert AllocatedBefore(order[j], order[i]);
      AppliedIsNotLooked(order[j], h, order[i], g);
      assert false;
    }
  }

  lemma AllocationIsReflexive(g: ScoringRiskGroup)
    ensures AllocatedBefore(g, g)
  {
    AllocatedBeforeIsPreorder();
  }

  lemma AppliedIsNotLooked(a: ScoringRiskGroup, b: ScoringRiskGroup, c: ScoringRiskGroup, d: ScoringRiskGroup)
    requires b == a.(appliedPenalty := b.appliedPenalty) && d == c.(appliedPenalty := d.appliedPenalty)
    ensures AllocatedBefore(a, c) == AllocatedBefore(b, d)
  {
  }

  /** g is what the category caps leave of the group of f. */
  ghost predicate Represents(g: ScoringRiskGroup, f: ScoringFinding, fs: set<ScoringFinding>, text: TextServices) {
    f in Members(fs, GroupKey(f, text), text) && SameButApplied(g, Group(fs, GroupKey(f, text), text))
  }

  lemma GroupHasFinding(fs: set<ScoringFinding>, c: ScoringCategory, h: ScoringRiskGroup, text: TextServices)
    returns (f: ScoringFinding)
    requires h in CategoryGroups(fs, c, text)
    ensures f.category == c && f in Members(fs, GroupKey(f, text), text) && h == Group(fs, GroupKey(f, text), text)
  {
    CategoryLength(fs, c, text);
    hide Group, GroupKey, KeyList, CategoryGroups;
    var i :| 0 <= i < |CategoryGroups(fs, c, text)| && h == CategoryGroups(fs, c, text)[i];
    f := CategoryGroupAt(fs, c, text, i);
  }

  lemma FindingHasGroup(fs: set<ScoringFinding>, f: ScoringFinding, text: TextServices)
    requires f in fs && Eligible(f)
    ensures f in Members(fs, GroupKey(f, text), text)
    ensures Group(fs, GroupKey(f, text), text) in CategoryGroups(fs, f.category, text)
  {
    KeyListFacts(fs, f.category, text);
    CategoryLength(fs, f.category, text);
    hide Group, GroupKey, KeyList, CategoryGroups, Eligible;
    var keys := KeyList(fs, f.category, text);
    assert GroupKey(f, text) in Keys(fs, f.category, text);
    var i :| 0 <= i < |keys| && keys[i] == GroupKey(f, text);
    var _ := CategoryGroupAt(fs, f.category, text, i);
    assert CategoryGroups(fs, f.category, text)[i] in CategoryGroups(fs, f.category, text);
  }

  lemma ContributorHasFinding(fs: set<ScoringFinding>, g: ScoringRiskGroup, text: TextServices)
    returns (f: ScoringFinding)
    requires g in Contributors(fs, text)
    ensures Represents(g, f, fs, text)
  {
    hide Group, GroupKey, Capped, CategoryGroups, Members;
    var c :| g in Capped(CategoryGroups(fs, c, text), c);
    var h := CappedHasGroup(CategoryGroups(fs, c, text), c, g);
    f := GroupHasFinding(fs, c, h, text);
  }

  lemma CappedContributes(fs: set<ScoringFinding>, c: ScoringCategory, g: ScoringRiskGroup, text: TextServices)
    requires g in Capped(CategoryGroups(fs, c, text), c)
    ensures g in Contributors(fs, text)
  {
    hide Capped, CategoryGroups;
  }

  lemma FindingHasContributor(fs: set<ScoringFinding>, f: ScoringFinding, text: TextServices)
    returns (g: ScoringRiskGroup)
    requires f in fs && Eligible(f)
    ensures g in Contributors(fs, text) && Represents(g, f, fs, text)
  {
    hide Group, GroupKey, Capped, CategoryGroups, Members, SameButApplied, Contributors, Eligible;
    FindingHasGroup(fs, f, text);
    g := GroupHasCapped(CategoryGroups(fs, f.category, text), f.category, Group(fs, GroupKey(f, text), text));
    CappedContributes(fs, f.category, g, text);
  }

  lemma {:induction false} HighestFacts(gs: seq<ScoringRiskGroup>)
    ensures forall g :: g in gs && g.state == Confirmed ==>
      HighestConfirmed(gs).Some? && g.severity.Rank() <= HighestConfirmed(gs).value.Rank()
    ensures HighestConfirmed(gs).Some? ==>
      exists g :: g in gs && g.state == Confirmed && g.severity == HighestConfirmed(gs).value
  {
    if gs != [] {
      HighestFacts(gs[1..]);
      var rest := HighestConfirmed(gs[1..]);
      if gs[0].state == Confirmed && (rest.None? || rest.value.Rank() <= gs[0].severity.Rank()) {
        assert gs[0] in gs;
      } else if rest.Some? {
        var g :| g in gs[1..] && g.state == Confirmed && g.severity == rest.value;
        assert g in gs;
      }
    }
  }

  ghost predicate SomeConfirmed(fs: set<ScoringFinding>, s: Severity) {
    exists f :: f in fs && Eligible(f) && f.state == Confirmed && f.severity == s
  }

  /** The most severe confirmed eligible finding. */
  ghost function TopConfirmed(fs: set<ScoringFinding>): Option<Severity> {
    if SomeConfirmed(fs, Critical) then Some(Critical)
    else if SomeConfirmed(fs, High) then Some(High)
    else if SomeConfirmed(fs, Medium) then Some(Medium)
    else if SomeConfirmed(fs, Low) then Some(Low)
    else None
  }

  /** The ceiling is driven by the most severe confirmed eligible finding. */
  lemma HighestIsTop(fs: set<ScoringFinding>, text: TextServices)
    requires ValidFindings(fs, text)
    ensures HighestConfirmed(Contributors(fs, text)) == TopConfirmed(fs)
  {
    hide Group, Contributors, GroupKey, HighestConfirmed;
    var gs := Contributors(fs, text);
    HighestFacts(gs);
    var r := HighestConfirmed(gs);
    if r.Some? {
      var g :| g in gs && g.state == Confirmed && g.severity == r.value;
      var f := ContributorHasFinding(fs, g, text);
      GroupFacts(fs, GroupKey(f, text), f, text);
      assert SomeConfirmed(fs, r.value);
    }
    forall s: Severity | SomeConfirmed(fs, s) ensures r.Some? && s.Rank() <= r.value.Rank() {
      var f :| f in fs && Eligible(f) && f.state == Confirmed && f.severity == s;
      var g := FindingHasContributor(fs, f, text);
      GroupFacts(fs, GroupKey(f, text), f, text);
    }
  }

  lemma {:induction false} GrantKeepsCriticals(order: seq<ScoringRiskGroup>, p: nat, c: nat)
    ensures SumBy(Grant(order, p, c), ConfirmedCritical) == SumBy(order, ConfirmedCritical)
  {
    if order != [] {
      GrantKeepsCriticals(order[1..], PotentialLeftAfter(order[0], p), c - Min(Available(order[0], p), c));
    }
  }

  lemma CappedKeepsCriticals(groups: seq<ScoringRiskGroup>, category: ScoringCategory)
    ensures SumBy(Capped(groups, category), ConfirmedCritical) == SumBy(groups, ConfirmedCritical)
  {
    var order := Sort(groups, AllocatedBefore);
    SortPreservesSum(groups, AllocatedBefore, ConfirmedCritical);
    GrantKeepsCriticals(order, PotentialCap(category), TotalCap(category));
    SortPreservesSum(Grant(order, PotentialCap(category), TotalCap(category)), GroupIdLe, ConfirmedCritical);
  }

  ghost function ChargedTotal(fs: set<ScoringFinding>, category: ScoringCategory, text: TextServices): nat {
    CappedTotal(category, Charge(fs, category, text, ConfirmedApplied), Charge(fs, category, text, PotentialApplied))
  }

  ghost function Criticals(fs: set<ScoringFinding>, text: TextServices): nat {
    Charge(fs, NetworkExposure, text, ConfirmedCritical)
    + Charge(fs, FirewallPosture, text, ConfirmedCritical)
    + Charge(fs, OtherDeterministicRisk, text, ConfirmedCritical)
  }

  ghost function TotalCharge(fs: set<ScoringFinding>, text: TextServices): nat {
    ChargedTotal(fs, NetworkExposure, text)
    + ChargedTotal(fs, FirewallPosture, text)
    + ChargedTotal(fs, OtherDeterministicRisk, text)
  }

  /** The score in closed form: six pre-cap charges, the top confirmed severity, the critical groups. */
  ghost function Score(fs: set<ScoringFinding>, text: TextServices): nat {
    GuardedScore(TotalCharge(fs, text), TopConfirmed(fs), Criticals(fs, text))
  }

  lemma BreakdownClosedForm(fs: set<ScoringFinding>, c: ScoringCategory, text: TextServices)
    ensures BreakdownOf(CategoryGroups(fs, c, text), c).appliedPenalty == ChargedTotal(fs, c, text)
    ensures SumBy(Capped(CategoryGroups(fs, c, text), c), ConfirmedCritical) == Charge(fs, c, text, ConfirmedCritical)
  {
    hide Capped, CategoryGroups, Charge, CappedTotal;
    CappedClosedForm(CategoryGroups(fs, c, text), c);
    CappedKeepsCriticals(CategoryGroups(fs, c, text), c);
    CategoryCharge(fs, c, text, ConfirmedApplied);
    CategoryCharge(fs, c, text, PotentialApplied);
    CategoryCharge(fs, c, text, ConfirmedCritical);
  }

  lemma ContributorCriticals(fs: set<ScoringFinding>, text: TextServices)
    ensures SumBy(Contributors(fs, text), ConfirmedCritical) == Criticals(fs, text)
  {
    hide Capped, CategoryGroups, Charge;
    var n := Capped(CategoryGroups(fs, NetworkExposure, text), NetworkExposure);
    var w := Capped(CategoryGroups(fs, FirewallPosture, text), FirewallPosture);
    var o := Capped(CategoryGroups(fs, OtherDeterministicRisk, text), OtherDeterministicRisk);
    BreakdownClosedForm(fs, NetworkExposure, text);
    BreakdownClosedForm(fs, FirewallPosture, text);
    BreakdownClosedForm(fs, OtherDeterministicRisk, text);
    SumByConcat(n, w, ConfirmedCritical);
    SumByConcat(n + w, o, ConfirmedCritical);
  }

  lemma ScoreParts(fs: set<ScoringFinding>, text: TextServices)
    ensures ScoreOf(fs, text).score == GuardedScore(
      BreakdownOf(CategoryGroups(fs, NetworkExposure, text), NetworkExposure).appliedPenalty
      + BreakdownOf(CategoryGroups(fs, FirewallPosture, text), FirewallPosture).appliedPenalty
      + BreakdownOf(CategoryGroups(fs, OtherDeterministicRisk, text), OtherDeterministicRisk).appliedPenalty,
      HighestConfirmed(Contributors(fs, text)), SumBy(Contributors(fs, text), ConfirmedCritical))
    ensures ScoreOf(fs, text).totalPenalty == 100 - ScoreOf(fs, text).score
    ensures ScoreOf(fs, text).highestConfirmed == HighestConfirmed(Contributors(fs, text))
  {
    hide Contributors, BreakdownOf, CategoryGroups, HighestConfirmed, RiskLevel, Sort, CountOf, SumBy;
  }

  /** The engine's score is the closed form. */
  lemma ScoreClosedForm(fs: set<ScoringFinding>, text: TextServices)
    requires ValidFindings(fs, text)
    ensures ScoreOf(fs, text).score == Score(fs, text)
    ensures ScoreOf(fs, text).totalPenalty == 100 - Score(fs, text)
    ensures ScoreOf(fs, text).highestConfirmed == TopConfirmed(fs)
  {
    hide ScoreOf, Contributors, BreakdownOf, CategoryGroups, HighestConfirmed, TopConfirmed, Criticals,
         ChargedTotal, ValidFindings, SumBy, GuardedScore, Charge;
    ScoreParts(fs, text);
    BreakdownClosedForm(fs, NetworkExposure, text);
    BreakdownClosedForm(fs, FirewallPosture, text);
    BreakdownClosedForm(fs, OtherDeterministicRisk, text);
    ContributorCriticals(fs, text);
    HighestIsTop(fs, text);
  }

  /** Monotonicity: more findings never give a better score. */
  lemma ScoreIsMonotone(fs: set<ScoringFinding>, fs': set<ScoringFinding>, text: TextServices)
    requires fs <= fs' && ValidFindings(fs', text)
    ensures Score(fs', text) <= Score(fs, text)
  {
    hide Charge, ValidFindings, SomeConfirmed;
    assert RisesWithPenalty(ConfirmedApplied) && RisesWithPenalty(PotentialApplied)
      && RisesWithPenalty(ConfirmedCritical);
    forall c: ScoringCategory
      ensures ChargedTotal(fs, c, text) <= ChargedTotal(fs', c, text)
      ensures Charge(fs, c, text, ConfirmedCritical) <= Charge(fs', c, text, ConfirmedCritical)
    {
      ChargeGrows(fs, fs', c, text, ConfirmedApplied);
      ChargeGrows(fs, fs', c, text, PotentialApplied);
      ChargeGrows(fs, fs', c, text, ConfirmedCritical);
    }
    ConfirmedStays(fs, fs');
  }

  lemma ConfirmedStays(fs: set<ScoringFinding>, fs': set<ScoringFinding>)
    requires fs <= fs'
    ensures forall s: Severity :: SomeConfirmed(fs, s) ==> SomeConfirmed(fs', s)
  {
  }

  // ----- the floor without confirmed findings

  lemma {:induction false} ZeroSum<K>(m: map<K, nat>)
    requires forall k :: k in m ==> m[k] == 0
    ensures SumMap(m) == 0
    decreases |m|
  {
    if m != map[] {
      var k :| k in m;
      RemoveShrinks(m, k);
      SumMapPick(m, k);
      ZeroSum(m - {k});
    }
  }

  lemma NothingConfirmed(fs: set<ScoringFinding>, category: ScoringCategory, text: TextServices)
    requires ValidFindings(fs, text)
    requires forall f :: f in fs && Eligible(f) ==> f.state != Confirmed
    ensures Charge(fs, category, text, ConfirmedApplied) == 0
    ensures Charge(fs, category, text, ConfirmedCritical) == 0
  {
    hide Group, GroupKey;
    var keys := Keys(fs, category, text);
    forall k | k in keys ensures Group(fs, k, text).state == Potential {
      var f :| f in fs && Eligible(f) && f.category == category && GroupKey(f, text) == k;
      assert f in Members(fs, k, text);
      GroupFacts(fs, k, f, text);
    }
    ZeroSum(ChargeMap(fs, keys, text, ConfirmedApplied));
    ZeroSum(ChargeMap(fs, keys, text, ConfirmedCritical));
  }

  lemma PotentialOnly(category: ScoringCategory, potential: nat)
    ensures CappedTotal(category, 0, potential) <= PotentialCap(category)
  {
  }

  /** Potential risk alone can cost at most 55 points. */
  lemma PotentialFloor(fs: set<ScoringFinding>, text: TextServices)
    requires ValidFindings(fs, text)
    requires forall f :: f in fs && Eligible(f) ==> f.state != Confirmed
    ensures Score(fs, text) >= 45
  {
    hide Charge, ValidFindings, Eligible, TopConfirmed, CappedTotal;
    forall c: ScoringCategory
      ensures ChargedTotal(fs, c, text) <= PotentialCap(c) && Charge(fs, c, text, ConfirmedCritical) == 0
    {
      NothingConfirmed(fs, c, text);
      PotentialOnly(c, Charge(fs, c, text, PotentialApplied));
    }
    NoTop(fs);
  }

  lemma NoTop(fs: set<ScoringFinding>)
    requires forall f :: f in fs && Eligible(f) ==> f.state != Confirmed
    ensures TopConfirmed(fs) == None
  {
  }

  // ----- contributors have ids of their own

  lemma CategoryIdsDiffer(fs: set<ScoringFinding>, category: ScoringCategory, text: TextServices)
    requires DigestsApart(fs, text) && ValidFindings(fs, text)
    ensures DistinctIds(CategoryGroups(fs, category, text))
  {
    CategoryLength(fs, category, text);
    KeyListFacts(fs, category, text);
    hide Eligible, GroupKey, Group, StableGroupId, KeyList, Members, Keys;
    var keys := KeyList(fs, category, text);
    var gs := CategoryGroups(fs, category, text);
    hide CategoryGroups;
    forall i, j | 0 <= i < j < |gs| ensures gs[i].groupId != gs[j].groupId {
      var f := CategoryGroupAt(fs, category, text, i);
      var g := CategoryGroupAt(fs, category, text, j);
      GroupIdentity(fs, keys[i], text);
      GroupIdentity(fs, keys[j], text);
      if gs[i].groupId == gs[j].groupId {
        GroupIdsDiffer(fs, f, g, text);
      }
    }
  }

  lemma JoinedIds(a: seq<ScoringRiskGroup>, b: seq<ScoringRiskGroup>)
    requires DistinctIds(a) && DistinctIds(b)
    requires forall g, h :: g in a && h in b ==> g.groupId != h.groupId
    ensures DistinctIds(a + b)
  {
  }

  lemma ContributorIdsDistinct(fs: set<ScoringFinding>, text: TextServices)
    requires DigestsApart(fs, text) && ValidFindings(fs, text)
    ensures DistinctIds(Contributors(fs, text))
  {
    CappedIds(fs, NetworkExposure, text);
    CappedIds(fs, FirewallPosture, text);
    CappedIds(fs, OtherDeterministicRisk, text);
    hide Capped, CategoryGroups, ValidFindings, DistinctIds;
    var n := Capped(CategoryGroups(fs, NetworkExposure, text), NetworkExposure);
    var w := Capped(CategoryGroups(fs, FirewallPosture, text), FirewallPosture);
    var o := Capped(CategoryGroups(fs, OtherDeterministicRisk, text), OtherDeterministicRisk);
    forall g, h | g in n && h in w ensures g.groupId != h.groupId { CategoriesDiffer(fs, g, h, text); }
    JoinedIds(n, w);
    forall g, h | g in n + w && h in o ensures g.groupId != h.groupId { CategoriesDiffer(fs, g, h, text); }
    JoinedIds(n + w, o);
  }

  lemma CategoriesDiffer(fs: set<ScoringFinding>, g: ScoringRiskGroup, h: ScoringRiskGroup, text: TextServices)
    requires DigestsApart(fs, text) && ValidFindings(fs, text)
    requires g in Capped(CategoryGroups(fs, g.category, text), g.category)
    requires h in Capped(CategoryGroups(fs, h.category, text), h.category)
    requires g.category != h.category
    ensures g.groupId != h.groupId
  {
    hide Capped, CategoryGroups, Group, GroupKey, Eligible;
    var a := CappedHasGroup(CategoryGroups(fs, g.category, text), g.category, g);
    var b := CappedHasGroup(CategoryGroups(fs, h.category, text), h.category, h);
    var f := GroupHasFinding(fs, g.category, a, text);
    var k := GroupHasFinding(fs, h.category, b, text);
    GroupIdentity(fs, GroupKey(f, text), text);
    GroupIdentity(fs, GroupKey(k, text), text);
    hide StableGroupId;
    if g.groupId == h.groupId {
      GroupIdsDiffer(fs, f, k, text);
      MembersAgree(f, k, text);
    }
  }

  lemma CappedIds(fs: set<ScoringFinding>, c: ScoringCategory, text: TextServices)
    requires DigestsApart(fs, text) && ValidFindings(fs, text)
    ensures DistinctIds(Capped(CategoryGroups(fs, c, text), c))
    ensures forall g :: g in Capped(CategoryGroups(fs, c, text), c) ==> g.category == c
  {
    var groups := CategoryGroups(fs, c, text);
    CategoryIdsDiffer(fs, c, text);
    forall g | g in Capped(groups, c) ensures g.category == c {
      CappedCategory(fs, c, g, text);
    }
    hide CategoryGroups, ValidFindings;
    var order := Sort(groups, AllocatedBefore);
    var granted := Grant(order, PotentialCap(c), TotalCap(c));
    SortIsPermutation(groups, AllocatedBefore);
    OrderKeepsIds(groups, order);
    GrantOnlyLowers(order, PotentialCap(c), TotalCap(c));
    assert DistinctIds(granted);
    SortIsPermutation(granted, GroupIdLe);
    OrderKeepsIds(granted, Sort(granted, GroupIdLe));
  }

  lemma CappedCategory(fs: set<ScoringFinding>, c: ScoringCategory, g: ScoringRiskGroup, text: TextServices)
    requires ValidFindings(fs, text) && g in Capped(CategoryGroups(fs, c, text), c)
    ensures g.category == c
  {
    hide Capped, CategoryGroups, Group, GroupKey, Eligible;
    var h := CappedHasGroup(CategoryGroups(fs, c, text), c, g);
    var f := GroupHasFinding(fs, c, h, text);
    GroupFacts(fs, GroupKey(f, text), f, text);
  }

  // ----- the contributors partition the eligible findings

  lemma GroupIds(fs: set<ScoringFinding>, key: Key, text: TextServices)
    requires Members(fs, key, text) != {}
    ensures forall x :: x in Group(fs, key, text).findingIds <==> x in Ids(Members(fs, key, text))
    ensures Distinct(Group(fs, key, text).findingIds) && Sorted(Group(fs, key, text).findingIds, StrLe)
  {
    GroupIdentity(fs, key, text);
    StrLeIsTotal();
    ListingFacts(Ids(Members(fs, key, text)), StrLe);
  }

  /** No finding is cited by two entries of the list. */
  ghost predicate CitesDisjoint(gs: seq<ScoringRiskGroup>) {
    forall i, j :: 0 <= i < j < |gs| ==> Elems(gs[i].findingIds) !! Elems(gs[j].findingIds)
  }

  lemma CitedTwice(fs: set<ScoringFinding>, g: ScoringRiskGroup, h: ScoringRiskGroup, x: string, text: TextServices)
    requires ValidFindings(fs, text)
    requires g in Contributors(fs, text) && h in Contributors(fs, text) && x in g.findingIds && x in h.findingIds
    ensures g.groupId == h.groupId
  {
    hide Contributors, StableGroupId, GroupKey, Eligible;
    var a := CitedFinding(fs, g, x, text);
    var b := CitedFinding(fs, h, x, text);
  }

  lemma NothingCitedTwice(fs: set<ScoringFinding>, text: TextServices)
    requires DigestsApart(fs, text) && ValidFindings(fs, text)
    ensures DistinctIds(Contributors(fs, text)) && CitesDisjoint(Contributors(fs, text))
  {
    ContributorIdsDistinct(fs, text);
    hide Contributors, ValidFindings, DigestsApart;
    var gs := Contributors(fs, text);
    forall i, j, x | 0 <= i < j < |gs| && x in gs[i].findingIds ensures x !in gs[j].findingIds {
      if x in gs[j].findingIds { CitedTwice(fs, gs[i], gs[j], x, text); }
    }
  }

  /** Every eligible finding is cited by exactly one contributor, and nothing else is cited. */
  lemma ContributorsPartitionEligible(fs: set<ScoringFinding>, text: TextServices)
    requires ValidFindings(fs, text)
    ensures forall f ::
      f in fs && Eligible(f) ==> exists g :: g in Contributors(fs, text) && f.findingId in g.findingIds
    ensures forall g, x :: g in Contributors(fs, text) && x in g.findingIds ==>
      exists f :: f in fs && Eligible(f) && f.findingId == x
    ensures forall g, h, x ::
      (g in Contributors(fs, text) && h in Contributors(fs, text) && x in g.findingIds && x in h.findingIds)
      ==> g.groupId == h.groupId
    ensures DigestsApart(fs, text) ==> DistinctIds(Contributors(fs, text)) && CitesDisjoint(Contributors(fs, text))
    ensures multiset(ScoreOf(fs, text).contributors) == multiset(Contributors(fs, text))
  {
    if DigestsApart(fs, text) { NothingCitedTwice(fs, text); }
    ContributorsAreSorted(fs, text);
    hide Group, Contributors, Eligible, GroupKey, ScoreOf, ValidFindings, DigestsApart, DistinctIds, CitesDisjoint;
    forall f | f in fs && Eligible(f) ensures exists g :: g in Contributors(fs, text) && f.findingId in g.findingIds {
      var g := CitingContributor(fs, f, text);
    }
    forall g, x | g in Contributors(fs, text) && x in g.findingIds
      ensures exists f :: f in fs && Eligible(f) && f.findingId == x
    {
      var f := CitedFinding(fs, g, x, text);
    }
    forall g, h, x |
      g in Contributors(fs, text) && h in Contributors(fs, text) && x in g.findingIds && x in h.findingIds
      ensures g.groupId == h.groupId
    {
      CitedTwice(fs, g, h, x, text);
    }
  }

  lemma ContributorsAreSorted(fs: set<ScoringFinding>, text: TextServices)
    ensures multiset(ScoreOf(fs, text).contributors) == multiset(Contributors(fs, text))
    ensures ScoreOf(fs, text).contributors == Sort(Contributors(fs, text), GroupIdLe)
  {
    hide Contributors, BreakdownOf, CategoryGroups, HighestConfirmed, RiskLevel, Sort, CountOf, SumBy, GuardedScore;
    SortIsPermutation(Contributors(fs, text), GroupIdLe);
  }

  lemma CitingContributor(fs: set<ScoringFinding>, f: ScoringFinding, text: TextServices)
    returns (g: ScoringRiskGroup)
    requires f in fs && Eligible(f)
    ensures g in Contributors(fs, text) && f.findingId in g.findingIds
  {
    hide Contributors, Eligible, GroupKey;
    g := FindingHasContributor(fs, f, text);
    GroupIds(fs, GroupKey(f, text), text);
  }

  lemma CitedFinding(fs: set<ScoringFinding>, g: ScoringRiskGroup, x: string, text: TextServices)
    returns (f: ScoringFinding)
    requires ValidFindings(fs, text)
    requires g in Contributors(fs, text) && x in g.findingIds
    ensures f in fs && Eligible(f) && f.findingId == x && g.groupId == StableGroupId(GroupKey(f, text), text)
  {
    hide Contributors, Eligible, GroupKey;
    var m := ContributorHasFinding(fs, g, text);
    GroupIds(fs, GroupKey(m, text), text);
    f :| f in Members(fs, GroupKey(m, text), text) && f.findingId == x;
  }
}
