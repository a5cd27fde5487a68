/** Weights, diminishing family penalties and the two-budget category allocator. */
module ScoringPenalties {
  import opened Common
  import opened Orders
  import opened Vocabulary
  import opened ScoringContracts

  function ConfirmedWeight(s: Severity): nat {
    match s
    case Critical => 30
    case High => 20
    case Medium => 10
    case Low => 5
    case Info => 0
  }

  function PotentialWeight(s: Severity): nat {
    match s
    case Critical => 12
    case High => 8
    case Medium => 4
    case Low => 2
    case Info => 0
  }

  function PotentialCap(c: ScoringCategory): nat {
    match c
    case NetworkExposure => 18
    case FirewallPosture => 12
    case OtherDeterministicRisk => 25
  }

  function TotalCap(c: ScoringCategory): nat {
    match c
    case NetworkExposure => 40
    case FirewallPosture => 40
    case OtherDeterministicRisk => 70
  }

  function ConfirmedCeiling(s: Severity): Option<nat> {
    match s
    case Critical => Some(49)
    case High => Some(74)
    case Medium => Some(89)
    case Low => Some(94)
    case Info => None
  }

  predicate Eligible(f: ScoringFinding) {
    f.kind == Risk && (f.state == Confirmed || f.state == Potential) && f.severity != Info
  }

  function AtomicPenalty(f: ScoringFinding): nat {
    if !Eligible(f) then 0
    else if f.state == Confirmed then ConfirmedWeight(f.severity)
    else PotentialWeight(f.severity)
  }

  function BasisFor(category: ScoringCategory, state: AssessmentState): ScoringBasisCode {
    match category
    case NetworkExposure => if state == Potential then PotentialListenerExposure else ConfirmedListenerExposure
    case FirewallPosture => if state == Potential then PotentialFirewallPolicyRisk else ConfirmedFirewallPolicyRisk
    case OtherDeterministicRisk => if state == Potential then PotentialDeterministicRisk else ConfirmedDeterministicRisk
  }

  // ----- families

  const DIMINISHING_NUMERATORS: seq<nat> := [8, 4, 2]

  function WeightedPenalty(base: nat, index: nat): nat {
    base * (if index < |DIMINISHING_NUMERATORS| then DIMINISHING_NUMERATORS[index] else 1) / 8
  }

  function FamilyCap(base: nat): nat {
    base * 14 / 8
  }

  /** What n equally weighted endpoints of a family add up to before the family cap. */
  function FamilyRaw(base: nat, n: nat): nat {
    if n == 0 then 0 else FamilyRaw(base, n - 1) + WeightedPenalty(base, n - 1)
  }

  function FamilyApplied(base: nat, n: nat): nat {
    Min(FamilyRaw(base, n), FamilyCap(base))
  }

  predicate IsTableWeight(b: nat) {
    exists s: Severity :: b == ConfirmedWeight(s) || b == PotentialWeight(s)
  }

  lemma {:induction false} FamilyRawGrows(base: nat, m: nat, n: nat)
    requires m <= n
    ensures FamilyRaw(base, m) <= FamilyRaw(base, n)
    decreases n
  {
    if m < n { FamilyRawGrows(base, m, n - 1); }
  }

  lemma FirstThreeEndpoints(b: nat)
    ensures FamilyRaw(b, 0) == 0
    ensures FamilyRaw(b, 1) == b
    ensures FamilyRaw(b, 2) == b + b * 4 / 8
    ensures FamilyRaw(b, 3) == b + b * 4 / 8 + b * 2 / 8
  {
    assert FamilyRaw(b, 2) == FamilyRaw(b, 1) + WeightedPenalty(b, 1);
    assert FamilyRaw(b, 3) == FamilyRaw(b, 2) + WeightedPenalty(b, 2);
  }

  lemma TableWeights(b: nat)
    requires IsTableWeight(b)
    ensures b in {30, 20, 10, 5, 0, 12, 8, 4, 2}
    ensures b * 14 / 8 <= b + b * 4 / 8 + b * 2 / 8 && b * 4 / 8 == b / 2
  {
    assert b in {30, 20, 10, 5, 0, 12, 8, 4, 2};
    hide IsTableWeight;
  }

  /** One port costs the base, two add half, and from three on the price is fixed. */
  lemma FamilyClosedForm(b: nat, n: nat)
    requires IsTableWeight(b)
    ensures n == 0 ==> FamilyApplied(b, n) == 0
    ensures n == 1 ==> FamilyApplied(b, n) == b
    ensures n == 2 ==> FamilyApplied(b, n) == b + b / 2
    ensures n >= 3 ==> FamilyApplied(b, n) == 14 * b / 8
    ensures n <= 1 ==> FamilyRaw(b, n) == FamilyApplied(b, n)
  {
    FirstThreeEndpoints(b);
    TableWeights(b);
    hide IsTableWeight;
    if n >= 3 {
      FamilyRawGrows(b, 3, n);
    }
    hide FamilyRaw;
  }

  // ----- the category allocator

  function Applied(g: ScoringRiskGroup): nat { g.appliedPenalty }

  function Raw(g: ScoringRiskGroup): nat { g.rawPenalty }

  function ConfirmedApplied(g: ScoringRiskGroup): nat {
    if g.state == Potential then 0 else g.appliedPenalty
  }

  function PotentialApplied(g: ScoringRiskGroup): nat {
    if g.state == Potential then g.appliedPenalty else 0
  }

  predicate GroupIdLe(a: ScoringRiskGroup, b: ScoringRiskGroup) {
    StrLe(a.groupId, b.groupId)
  }

  /** Descending by (confirmed, severity, raw penalty, group id). */
  predicate AllocatedBefore(a: ScoringRiskGroup, b: ScoringRiskGroup) {
    if (a.state == Confirmed) != (b.state == Confirmed) then a.state == Confirmed
    else if a.severity.Rank() != b.severity.Rank() then a.severity.Rank() > b.severity.Rank()
    else if a.rawPenalty != b.rawPenalty then a.rawPenalty > b.rawPenalty
    else StrLe(b.groupId, a.groupId)
  }

  lemma AllocatedBeforeIsPreorder()
    ensures Preorder(AllocatedBefore)
    ensures Preorder(GroupIdLe)
  {
    StrLeIsTotal();
    assert forall x, y :: AllocatedBefore(x, y) || AllocatedBefore(y, x);
    forall x, y, z | AllocatedBefore(x, y) && AllocatedBefore(y, z) ensures AllocatedBefore(x, z) {
      if StrLe(y.groupId, x.groupId) && StrLe(z.groupId, y.groupId) { assert StrLe(z.groupId, x.groupId); }
    }
    assert forall x, y :: GroupIdLe(x, y) || GroupIdLe(y, x);
    forall x, y, z | GroupIdLe(x, y) && GroupIdLe(y, z) ensures GroupIdLe(x, z) {
      assert StrLe(x.groupId, z.groupId);
    }
  }

  ghost predicate DistinctIds(gs: seq<ScoringRiskGroup>) {
    forall i, j :: 0 <= i < j < |gs| ==> gs[i].groupId != gs[j].groupId
  }

  /** What a group may take at most, given what is left of the potential budget. */
  function Available(g: ScoringRiskGroup, potentialLeft: nat): nat {
    if g.state == Potential then Min(g.appliedPenalty, potentialLeft) else g.appliedPenalty
  }

  function PotentialLeftAfter(g: ScoringRiskGroup, potentialLeft: nat): nat {
    if g.state == Potential then potentialLeft - Available(g, potentialLeft) else potentialLeft
  }

  /** Every group with the share it is granted when served in this order. */
  function Grant(order: seq<ScoringRiskGroup>, potentialLeft: nat, categoryLeft: nat): (r: seq<ScoringRiskGroup>)
    ensures |r| == |order|
  {
    if order == [] then []
    else
      var granted := Min(Available(order[0], potentialLeft), categoryLeft);
      [order[0].(appliedPenalty := granted)]
      + Grant(order[1..], PotentialLeftAfter(order[0], potentialLeft), categoryLeft - granted)
  }

  lemma {:induction false} GrantOnlyLowers(order: seq<ScoringRiskGroup>, potentialLeft: nat, categoryLeft: nat)
    ensures var r := Grant(order, potentialLeft, categoryLeft);
      forall i :: 0 <= i < |r| ==>
        r[i].appliedPenalty <= order[i].appliedPenalty && r[i] == order[i].(appliedPenalty := r[i].appliedPenalty)
  {
    if order != [] {
      GrantOnlyLowers(order[1..], PotentialLeftAfter(order[0], potentialLeft),
                      categoryLeft - Min(Available(order[0], potentialLeft), categoryLeft));
    }
  }

  lemma GrantStep(order: seq<ScoringRiskGroup>, i: nat, p: nat, c: nat)
    requires i < |order|
    ensures var granted := Min(Available(order[i], p), c);
      Grant(order[i..], p, c)
      == [order[i].(appliedPenalty := granted)] + Grant(order[i + 1..], PotentialLeftAfter(order[i], p), c - granted)
  {
    assert order[i..][0] == order[i] && order[i..][1..] == order[i + 1..];
  }

  lemma SumByCons<T>(head: T, tail: seq<T>, charge: T -> nat)
    ensures SumBy([head] + tail, charge) == charge(head) + SumBy(tail, charge)
  {
    assert ([head] + tail)[1..] == tail;
  }

  /** The two budgets in closed form, whatever the order of service. */
  lemma {:induction false} GrantTotal(order: seq<ScoringRiskGroup>, potentialLeft: nat, categoryLeft: nat)
    ensures SumBy(Grant(order, potentialLeft, categoryLeft), Applied)
      == Min(categoryLeft, SumBy(order, ConfirmedApplied) + Min(SumBy(order, PotentialApplied), potentialLeft))
    ensures SumBy(Grant(order, potentialLeft, categoryLeft), PotentialApplied) <= potentialLeft
  {
    if order != [] {
      var g := order[0];
      var granted := Min(Available(g, potentialLeft), categoryLeft);
      var rest := Grant(order[1..], PotentialLeftAfter(g, potentialLeft), categoryLeft - granted);
      GrantTotal(order[1..], PotentialLeftAfter(g, potentialLeft), categoryLeft - granted);
      assert Grant(order, potentialLeft, categoryLeft) == [g.(appliedPenalty := granted)] + rest;
      SumByCons(g.(appliedPenalty := granted), rest, Applied);
      SumByCons(g.(appliedPenalty := granted), rest, PotentialApplied);
      hide Grant;
    }
  }

  /** Served first, confirmed groups receive all they ask for up to the category cap. */
  lemma {:induction false} GrantServesConfirmedFirst(order: seq<ScoringRiskGroup>, potentialLeft: nat,
                                                     categoryLeft: nat)
    requires Sorted(order, AllocatedBefore)
    requires forall g :: g in order ==> g.state == Confirmed || g.state == Potential
    ensures SumBy(Grant(order, potentialLeft, categoryLeft), ConfirmedApplied)
      == Min(SumBy(order, ConfirmedApplied), categoryLeft)
  {
    if order != [] {
      var g := order[0];
      var granted := Min(Available(g, potentialLeft), categoryLeft);
      var rest := Grant(order[1..], PotentialLeftAfter(g, potentialLeft), categoryLeft - granted);
      assert Grant(order, potentialLeft, categoryLeft) == [g.(appliedPenalty := granted)] + rest;
      hide Grant;
      SumByCons(g.(appliedPenalty := granted), rest, ConfirmedApplied);
      GrantServesConfirmedFirst(order[1..], PotentialLeftAfter(g, potentialLeft), categoryLeft - granted);
      if g.state == Potential {
        PotentialOnlyAfter(order);
        NoneConfirmed(order[1..]);
      }
    }
  }

  lemma PotentialOnlyAfter(order: seq<ScoringRiskGroup>)
    requires order != [] && Sorted(order, AllocatedBefore) && order[0].state == Potential
    requires forall g :: g in order ==> g.state == Confirmed || g.state == Potential
    ensures forall h :: h in order[1..] ==> h.state == Potential
  {
    forall h | h in order[1..] ensures h.state == Potential {
      var i :| 1 <= i < |order| && order[i] == h;
      assert AllocatedBefore(order[0], order[i]);
    }
  }

  lemma {:induction false} NoneConfirmed(gs: seq<ScoringRiskGroup>)
    requires forall g :: g in gs ==> g.state == Potential
    ensures SumBy(gs, ConfirmedApplied) == 0
  {
    if gs != [] { NoneConfirmed(gs[1..]); }
  }

  /** The capped groups of one category, by group id. */
  function Capped(groups: seq<ScoringRiskGroup>, category: ScoringCategory): seq<ScoringRiskGroup> {
    Sort(Grant(Sort(groups, AllocatedBefore), PotentialCap(category), TotalCap(category)), GroupIdLe)
  }

  /** The charge of a category as a function of its two pre-cap sums alone. */
  function CappedTotal(category: ScoringCategory, confirmed: nat, potential: nat): nat {
    Min(TotalCap(category), confirmed + Min(potential, PotentialCap(category)))
  }

  lemma SortPreservesSum(groups: seq<ScoringRiskGroup>, le: (ScoringRiskGroup, ScoringRiskGroup) -> bool,
                         charge: ScoringRiskGroup -> nat)
    ensures SumBy(Sort(groups, le), charge) == SumBy(groups, charge)
  {
    SortIsPermutation(groups, le);
    SumByPermutation(Sort(groups, le), groups, charge);
  }

  /** A category charges its two pre-cap sums through the two caps, nothing else. */
  lemma CappedClosedForm(groups: seq<ScoringRiskGroup>, category: ScoringCategory)
    ensures SumBy(Capped(groups, category), Applied)
      == CappedTotal(category, SumBy(groups, ConfirmedApplied), SumBy(groups, PotentialApplied))
  {
    hide Sort, Grant, SumBy, PotentialCap, TotalCap;
    var order := Sort(groups, AllocatedBefore);
    var granted := Grant(order, PotentialCap(category), TotalCap(category));
    SortPreservesSum(groups, AllocatedBefore, ConfirmedApplied);
    SortPreservesSum(groups, AllocatedBefore, PotentialApplied);
    GrantTotal(order, PotentialCap(category), TotalCap(category));
    SortPreservesSum(granted, GroupIdLe, Applied);
  }

  /** Potential groups stay within their own cap; confirmed ones are served before them. */
  lemma CappedShares(groups: seq<ScoringRiskGroup>, category: ScoringCategory)
    requires forall g :: g in groups ==> g.state == Confirmed || g.state == Potential
    ensures SumBy(Capped(groups, category), PotentialApplied) <= PotentialCap(category)
    ensures SumBy(Capped(groups, category), ConfirmedApplied)
      == Min(SumBy(groups, ConfirmedApplied), TotalCap(category))
  {
    var order := Sort(groups, AllocatedBefore);
    var granted := Grant(order, PotentialCap(category), TotalCap(category));
    AllocatedBeforeIsPreorder();
    SortIsSorted(groups, AllocatedBefore);
    SortIsPermutation(groups, AllocatedBefore);
    SortPreservesSum(groups, AllocatedBefore, ConfirmedApplied);
    GrantTotal(order, PotentialCap(category), TotalCap(category));
    GrantServesConfirmedFirst(order, PotentialCap(category), TotalCap(category));
    SortPreservesSum(granted, GroupIdLe, PotentialApplied);
    SortPreservesSum(granted, GroupIdLe, ConfirmedApplied);
  }

  lemma {:induction false} NothingLeft(order: seq<ScoringRiskGroup>, potentialLeft: nat, categoryLeft: nat)
    ensures categoryLeft == 0 ==>
      forall i :: 0 <= i < |order| ==> Grant(order, potentialLeft, categoryLeft)[i].appliedPenalty == 0
    ensures potentialLeft == 0 ==> forall i :: 0 <= i < |order| && order[i].state == Potential ==>
      Grant(order, potentialLeft, categoryLeft)[i].appliedPenalty == 0
  {
    if order != [] {
      var granted := Min(Available(order[0], potentialLeft), categoryLeft);
      NothingLeft(order[1..], PotentialLeftAfter(order[0], potentialLeft), categoryLeft - granted);
    }
  }

  /** Served in order: whoever gets points, everyone of its kind before it was served in full. */
  lemma {:induction false} GrantIsGreedy(order: seq<ScoringRiskGroup>, potentialLeft: nat, categoryLeft: nat, i: nat,
                                         j: nat)
    requires i < j < |order| && (order[i].state != Potential || order[j].state == Potential)
    requires Grant(order, potentialLeft, categoryLeft)[j].appliedPenalty > 0
    ensures Grant(order, potentialLeft, categoryLeft)[i].appliedPenalty == order[i].appliedPenalty
  {
    var granted := Min(Available(order[0], potentialLeft), categoryLeft);
    var p, c := PotentialLeftAfter(order[0], potentialLeft), categoryLeft - granted;
    assert Grant(order, potentialLeft, categoryLeft)[1..] == Grant(order[1..], p, c);
    if i > 0 {
      GrantIsGreedy(order[1..], p, c, i - 1, j - 1);
    } else {
      NothingLeft(order[1..], p, c);
    }
  }

  lemma IdsSeparate(gs: seq<ScoringRiskGroup>)
    requires DistinctIds(gs)
    ensures Separates(AllocatedBefore, gs) && Separates(GroupIdLe, gs) && Distinct(gs)
  {
    StrLeIsTotal();
    forall x, y | x in gs && y in gs && x.groupId == y.groupId ensures x == y {
      var i, j :| 0 <= i < |gs| && 0 <= j < |gs| && gs[i] == x && gs[j] == y;
      assert i == j;
    }
  }

  lemma OrderKeepsIds(groups: seq<ScoringRiskGroup>, order: seq<ScoringRiskGroup>)
    requires DistinctIds(groups) && multiset(order) == multiset(groups)
    ensures DistinctIds(order)
  {
    IdsSeparate(groups);
    PermutationKeepsDistinct(groups, order);
    forall i, j | 0 <= i < j < |order| ensures order[i].groupId != order[j].groupId {
      assert order[i] in multiset(groups) && order[j] in multiset(groups);
      var a, b :| 0 <= a < |groups| && 0 <= b < |groups| && groups[a] == order[i] && groups[b] == order[j];
      assert a != b;
    }
  }

  /** Capping forgets the order in which the groups were produced. */
  lemma CappedForgetsOrder(a: seq<ScoringRiskGroup>, b: seq<ScoringRiskGroup>, category: ScoringCategory)
    requires DistinctIds(a) && multiset(a) == multiset(b)
    ensures Capped(a, category) == Capped(b, category)
  {
    IdsSeparate(a);
    AllocatedBeforeIsPreorder();
    SortForgetsOrder(a, b, AllocatedBefore);
  }
}
