/**
 * A second account of the score, read off the findings alone: which findings form one risk,
 * what a risk costs, and what is left of 100. It knows nothing of keys, groups or allocation.
 */
module ScoringReference {
  import opened Common
  import opened Orders
  import opened Text
  import opened Vocabulary
  import opened ScoringContracts
  import opened ScoringPenalties
  import opened ScoringModel
  import opened ScoringLaws

  // ----- which findings form one risk

  /** A finding that can cost points. */
  predicate Counts(f: ScoringFinding) {
    f.kind == Risk && (f.state == Confirmed || f.state == Potential) && f.severity != Info
  }

  predicate Named(name: Option<string>) {
    name.Some? && name.value != ""
  }

  /** Application identities decide if there are any, else process names, else the port stands for the program. */
  predicate SameProgram(a: NetworkScoringIdentity, b: NetworkScoringIdentity, text: TextServices) {
    || (Named(a.applicationIdentity) && Named(b.applicationIdentity)
        && text.casefold(a.applicationIdentity.value) == text.casefold(b.applicationIdentity.value))
    || (!Named(a.applicationIdentity) && !Named(b.applicationIdentity)
        && Named(a.processBasename) && Named(b.processBasename)
        && text.casefold(a.processBasename.value) == text.casefold(b.processBasename.value))
    || (!Named(a.applicationIdentity) && !Named(b.applicationIdentity)
        && !Named(a.processBasename) && !Named(b.processBasename) && a.port == b.port)
  }

  /** Listeners of one program seen in one way are one risk; any other finding is a risk of its own. */
  predicate SameRisk(f: ScoringFinding, g: ScoringFinding, text: TextServices) {
    if f.network.Some? && g.network.Some? then
      && text.casefold(f.source) == text.casefold(g.source)
      && f.severity == g.severity && f.state == g.state
      && f.network.value.protocol == g.network.value.protocol
      && f.network.value.bindExposure == g.network.value.bindExposure
      && f.network.value.reachability == g.network.value.reachability
      && SameProgram(f.network.value, g.network.value, text)
    else f == g
  }

  ghost function Family(fs: set<ScoringFinding>, f: ScoringFinding, text: TextServices): set<ScoringFinding> {
    set g | g in fs && Counts(g) && SameRisk(f, g, text)
  }

  lemma ClosedValuesDiffer()
    ensures forall a: BindExposure, b: BindExposure :: a.Value() == b.Value() ==> a == b
    ensures forall a: RemoteReachabilityState, b: RemoteReachabilityState :: a.Value() == b.Value() ==> a == b
  {
    forall a: BindExposure, b: BindExposure | a.Value() == b.Value() ensures a == b {
      assert a.Value()[0] == b.Value()[0];
    }
    forall a: RemoteReachabilityState, b: RemoteReachabilityState | a.Value() == b.Value() ensures a == b {
      assert a.Value()[0] == b.Value()[0];
    }
  }

  lemma SubjectOf(id: NetworkScoringIdentity, text: TextServices)
    ensures Named(id.applicationIdentity) ==>
      NormalizedSubject(id, text) == "application:" + text.casefold(id.applicationIdentity.value)
    ensures !Named(id.applicationIdentity) && Named(id.processBasename) ==>
      NormalizedSubject(id, text) == "process:" + text.casefold(id.processBasename.value)
    ensures !Named(id.applicationIdentity) && !Named(id.processBasename) ==>
      NormalizedSubject(id, text) == ("unknown:" + id.protocol + ":") + Decimal(id.port)
  {
    assert "unknown:" + id.protocol + ":" + Decimal(id.port) == ("unknown:" + id.protocol + ":") + Decimal(id.port);
  }

  lemma PrefixesCancel(p: string, s: string, q: string, t: string)
    requires p + s == q + t && |p| == |q|
    ensures p == q && s == t
  {
    assert (p + s)[..|p|] == p && (q + t)[..|q|] == q;
    assert (p + s)[|p|..] == s && (q + t)[|q|..] == t;
  }

  /** The subject text tells programs apart exactly where they differ. */
  lemma SubjectMeansProgram(a: NetworkScoringIdentity, b: NetworkScoringIdentity, text: TextServices)
    requires a.protocol == b.protocol
    ensures NormalizedSubject(a, text) == NormalizedSubject(b, text) <==> SameProgram(a, b, text)
  {
    SubjectOf(a, text);
    SubjectOf(b, text);
    var s, t := NormalizedSubject(a, text), NormalizedSubject(b, text);
    hide NormalizedSubject, Decimal;
    if s == t {
      assert s[0] == t[0];
      if Named(a.applicationIdentity) {
        PrefixesCancel("application:", text.casefold(a.applicationIdentity.value),
                       "application:", text.casefold(b.applicationIdentity.value));
      } else if Named(a.processBasename) {
        PrefixesCancel("process:", text.casefold(a.processBasename.value),
                       "process:", text.casefold(b.processBasename.value));
      } else {
        PrefixesCancel("unknown:" + a.protocol + ":", Decimal(a.port), "unknown:" + b.protocol + ":", Decimal(b.port));
        DecimalInjective(a.port, b.port);
      }
    }
  }

  /** Two findings share a group key exactly if they are one risk. */
  lemma KeyMeansRisk(fs: set<ScoringFinding>, f: ScoringFinding, g: ScoringFinding, text: TextServices)
    requires ValidFindings(fs, text) && f in fs && g in fs
    ensures GroupKey(f, text) == GroupKey(g, text) <==> SameRisk(f, g, text)
  {
    assert f.Valid(text) && g.Valid(text);
    hide ScoringFinding.Valid;
    if f.network.Some? && g.network.Some? {
      NetworkKeyMeansRisk(f, g, text);
    } else if GroupKey(f, text) == GroupKey(g, text) {
      MembersAgree(f, g, text);
    }
  }

  lemma NetworkKeyMeansRisk(f: ScoringFinding, g: ScoringFinding, text: TextServices)
    requires f.Valid(text) && g.Valid(text) && f.network.Some? && g.network.Some?
    ensures GroupKey(f, text) == GroupKey(g, text) <==> SameRisk(f, g, text)
  {
    var a, b := GroupKey(f, text), GroupKey(g, text);
    ValuesAreInjective();
    ClosedValuesDiffer();
    hide ScoringCategory.Value, Severity.Value, AssessmentState.Value, BindExposure.Value,
      RemoteReachabilityState.Value,
         NormalizedSubject, SameProgram, TextServices.BoundedText;
    if f.network.value.protocol == g.network.value.protocol {
      SubjectMeansProgram(f.network.value, g.network.value, text);
    }
    assert a == b <==> a[0] == b[0] && a[1] == b[1] && a[2] == b[2] && a[3] == b[3] && a[4] == b[4] && a[5] == b[5]
                       && a[6] == b[6] && a[7] == b[7];
  }

  lemma CountsIsEligible(f: ScoringFinding)
    ensures Counts(f) <==> Eligible(f)
  {
  }

  lemma FamilyIsMembers(fs: set<ScoringFinding>, f: ScoringFinding, text: TextServices)
    requires ValidFindings(fs, text) && f in fs
    ensures Family(fs, f, text) == Members(fs, GroupKey(f, text), text)
  {
    hide SameRisk, GroupKey, ValidFindings, Counts, Eligible;
    forall g | g in fs ensures SameRisk(f, g, text) <==> GroupKey(g, text) == GroupKey(f, text) {
      KeyMeansRisk(fs, f, g, text);
      CountsIsEligible(g);
    }
    forall g { CountsIsEligible(g); }
  }

  /** The groups of a score are its risks: two findings are cited together exactly if they are one risk. */
  lemma CitedTogetherExactlyWhen(fs: set<ScoringFinding>, f: ScoringFinding, g: ScoringFinding, text: TextServices)
    requires ValidFindings(fs, text) && f in fs && g in fs && Counts(f) && Counts(g)
    ensures (exists c ::
               c in ScoreOf(fs, text).contributors && f.findingId in c.findingIds && g.findingId in c.findingIds)
      <==> SameRisk(f, g, text)
  {
    CountsIsEligible(f);
    CountsIsEligible(g);
    ContributorsAreSorted(fs, text);
    KeyMeansRisk(fs, f, g, text);
    hide ScoreOf, Contributors, ValidFindings, SameRisk, GroupKey, Eligible, Counts, Sort;
    forall c ensures c in ScoreOf(fs, text).contributors <==> c in Contributors(fs, text) {
      assert c in ScoreOf(fs, text).contributors <==> c in multiset(ScoreOf(fs, text).contributors);
    }
    if c :| c in ScoreOf(fs, text).contributors && f.findingId in c.findingIds && g.findingId in c.findingIds {
      CitedTogetherSameKey(fs, c, f, g, text);
    }
    if GroupKey(f, text) == GroupKey(g, text) {
      var c := FindingHasContributor(fs, f, text);
      CitesMembers(fs, c, f, f, text);
      CitesMembers(fs, c, f, g, text);
    }
  }

  /** Two findings that can cost points are cited by one contributor exactly if they are one risk. */
  ghost predicate CitesByRisk(r: ScoringResult, fs: set<ScoringFinding>, text: TextServices) {
    forall f, g :: f in fs && g in fs && Counts(f) && Counts(g) ==>
      (SameRisk(f, g, text)
       <==> exists c :: c in r.contributors && f.findingId in c.findingIds && g.findingId in c.findingIds)
  }

  lemma ScoreCitesByRisk(fs: set<ScoringFinding>, text: TextServices)
    requires ValidFindings(fs, text)
    ensures CitesByRisk(ScoreOf(fs, text), fs, text)
  {
    hide ScoreOf, ValidFindings, SameRisk, Counts;
    forall f, g | f in fs && g in fs && Counts(f) && Counts(g)
      ensures SameRisk(f, g, text) <==>
        exists c :: c in ScoreOf(fs, text).contributors && f.findingId in c.findingIds && g.findingId in c.findingIds
    {
      CitedTogetherExactlyWhen(fs, f, g, text);
    }
  }

  lemma CitesMembers(fs: set<ScoringFinding>, c: ScoringRiskGroup, f: ScoringFinding, g: ScoringFinding,
                     text: TextServices)
    requires ValidFindings(fs, text) && Represents(c, f, fs, text) && g in fs && Eligible(g)
    ensures g.findingId in c.findingIds <==> GroupKey(g, text) == GroupKey(f, text)
  {
    hide GroupKey, Eligible, Group;
    GroupIds(fs, GroupKey(f, text), text);
    if g.findingId in c.findingIds {
      var m :| m in Members(fs, GroupKey(f, text), text) && m.findingId == g.findingId;
      assert m == g;
    }
  }

  lemma CitedTogetherSameKey(fs: set<ScoringFinding>, c: ScoringRiskGroup, f: ScoringFinding, g: ScoringFinding,
                             text: TextServices)
    requires ValidFindings(fs, text) && c in Contributors(fs, text)
    requires f in fs && g in fs && Eligible(f) && Eligible(g)
    requires f.findingId in c.findingIds && g.findingId in c.findingIds
    ensures GroupKey(f, text) == GroupKey(g, text)
  {
    var m := ContributorHasFinding(fs, c, text);
    hide Contributors, ValidFindings, GroupKey, Eligible, Represents;
    CitesMembers(fs, c, m, f, text);
    CitesMembers(fs, c, m, g, text);
  }

  // ----- what a risk costs

  /** Points of one finding. */
  function Weight(severity: Severity, state: AssessmentState): nat {
    if state == Confirmed then
      if severity == Critical then 30 else if severity == High then 20 else if severity == Medium then 10
      else if severity == Low then 5 else 0
    else
      if severity == Critical then 12 else if severity == High then 8 else if severity == Medium then 4
      else if severity == Low then 2 else 0
  }

  /** The first port costs the weight, a second half of it, all further ones together a quarter. */
  function Price(weight: nat, ports: nat): nat {
    if ports <= 1 then weight else if ports == 2 then weight + weight / 2 else 7 * weight / 4
  }

  /** Before the family cap each port after the third adds an eighth. */
  function RawPrice(weight: nat, ports: nat): nat {
    if ports <= 1 then weight
    else if ports == 2 then weight + weight / 2
    else weight + weight / 2 + weight / 4 + (ports - 3) * (weight / 8)
  }

  ghost function PortsOf(risk: set<ScoringFinding>): set<nat> {
    set f | f in risk && f.network.Some? :: f.network.value.port
  }

  lemma WeightIsPenalty(f: ScoringFinding)
    requires Counts(f)
    ensures AtomicPenalty(f) == Weight(f.severity, f.state) && IsTableWeight(AtomicPenalty(f))
  {
    assert AtomicPenalty(f) == ConfirmedWeight(f.severity) || AtomicPenalty(f) == PotentialWeight(f.severity);
  }

  lemma {:induction false} RawFromThree(b: nat, n: nat)
    requires n >= 3
    ensures FamilyRaw(b, n) == b + b * 4 / 8 + b * 2 / 8 + (n - 3) * (b / 8)
  {
    if n == 3 {
      FirstThreeEndpoints(b);
    } else {
      RawFromThree(b, n - 1);
      assert (n - 3) * (b / 8) == (n - 4) * (b / 8) + b / 8;
    }
  }

  lemma Fractions(b: nat)
    ensures 14 * b / 8 == 7 * b / 4 && b * 4 / 8 == b / 2 && b * 2 / 8 == b / 4
  {
    var q, r := b / 8, b % 8;
    assert b == 8 * q + r && r in {0, 1, 2, 3, 4, 5, 6, 7};
  }

  lemma PricesAgree(b: nat, n: nat)
    requires IsTableWeight(b) && n >= 1
    ensures FamilyApplied(b, n) == Price(b, n) && FamilyRaw(b, n) == RawPrice(b, n)
  {
    FamilyClosedForm(b, n);
    FirstThreeEndpoints(b);
    Fractions(b);
    hide FamilyApplied, FamilyRaw, IsTableWeight;
    if n >= 3 { RawFromThree(b, n); }
  }

  /** What a group of the engine says about its risk. */
  lemma GroupIsRisk(fs: set<ScoringFinding>, f: ScoringFinding, text: TextServices)
    requires ValidFindings(fs, text) && f in fs && Counts(f)
    ensures var g, risk := Group(fs, GroupKey(f, text), text), Family(fs, f, text);
      var w := Weight(f.severity, f.state);
      && f in risk
      && g.category == f.category && g.severity == f.severity && g.state == f.state
      && g.basePenalty == w
      && g.rawPenalty == RawPrice(w, |PortsOf(risk)|)
      && g.appliedPenalty == Price(w, |PortsOf(risk)|)
  {
    CountsIsEligible(f);
    FamilyIsMembers(fs, f, text);
    WeightIsPenalty(f);
    var ms := Members(fs, GroupKey(f, text), text);
    assert f in ms && PortsOf(ms) == Ports(ms);
    GroupFacts(fs, GroupKey(f, text), f, text);
    hide Group, GroupKey, Weight, Eligible, Counts, ValidFindings, Price, RawPrice;
    PricesAgree(AtomicPenalty(f), Endpoints(ms));
    PriceOfOne(Weight(f.severity, f.state));
    assert Ports(ms) == {} ==> |Ports(ms)| == 0;
  }

  lemma PriceOfOne(w: nat)
    ensures Price(w, 0) == Price(w, 1) && RawPrice(w, 0) == RawPrice(w, 1)
  {
  }

  /** What a risk costs if it is in this state; nothing otherwise. */
  ghost function Cost(state: AssessmentState): set<ScoringFinding> -> nat {
    (risk: set<ScoringFinding>) =>
      if risk == {} then 0
      else
        var f :| f in risk;
        if f.state == state then Price(Weight(f.severity, f.state), |PortsOf(risk)|) else 0
  }

  /** What a risk would cost without the family cap. */
  ghost function RawCost(risk: set<ScoringFinding>): nat {
    if risk == {} then 0
    else
      var f :| f in risk;
      RawPrice(Weight(f.severity, f.state), |PortsOf(risk)|)
  }

  ghost function Risks(fs: set<ScoringFinding>, category: ScoringCategory, text: TextServices)
    : set<set<ScoringFinding>>
  {
    set f | f in fs && Counts(f) && f.category == category :: Family(fs, f, text)
  }

  ghost function Total(risks: set<set<ScoringFinding>>, cost: set<ScoringFinding> -> nat): nat {
    SumMap(map risk | risk in risks :: cost(risk))
  }

  lemma SameRiskSameWeight(f: ScoringFinding, g: ScoringFinding, text: TextServices)
    requires SameRisk(f, g, text)
    ensures f.severity == g.severity && f.state == g.state
  {
  }

  lemma CostOfFamily(fs: set<ScoringFinding>, f: ScoringFinding, text: TextServices)
    requires f in fs && Counts(f) && SameRisk(f, f, text)
    ensures var risk, w := Family(fs, f, text), Weight(f.severity, f.state);
      && RawCost(risk) == RawPrice(w, |PortsOf(risk)|)
      && forall state :: Cost(state)(risk) == if f.state == state then Price(w, |PortsOf(risk)|) else 0
  {
    hide Price, RawPrice, Weight, SameRisk, Counts;
    assert f in Family(fs, f, text);
    forall g | g in Family(fs, f, text) ensures g.severity == f.severity && g.state == f.state {
      SameRiskSameWeight(f, g, text);
    }
  }

  /** The charge of a group of this state. */
  function ChargeIn(state: AssessmentState): ScoringRiskGroup -> nat {
    (g: ScoringRiskGroup) => if g.state == state then g.appliedPenalty else 0
  }

  lemma RiskOfKey(fs: set<ScoringFinding>, category: ScoringCategory, k: Key, text: TextServices)
    returns (f: ScoringFinding)
    requires ValidFindings(fs, text) && k in Keys(fs, category, text)
    ensures f in fs && Counts(f) && f.category == category && GroupKey(f, text) == k && f in Members(fs, k, text)
    ensures Members(fs, k, text) == Family(fs, f, text) && Members(fs, k, text) in Risks(fs, category, text)
    ensures RawCost(Members(fs, k, text)) == Group(fs, k, text).rawPenalty
    ensures forall state :: Cost(state)(Members(fs, k, text)) == ChargeIn(state)(Group(fs, k, text))
  {
    hide GroupKey, Group;
    f :| f in fs && Eligible(f) && f.category == category && GroupKey(f, text) == k;
    CountsIsEligible(f);
    hide Counts, Eligible, ValidFindings;
    FamilyIsMembers(fs, f, text);
    KeyMeansRisk(fs, f, f, text);
    GroupIsRisk(fs, f, text);
    CostOfFamily(fs, f, text);
    hide Family, Cost, RawCost, Price, RawPrice, Weight;
  }

  lemma KeyOfRisk(fs: set<ScoringFinding>, category: ScoringCategory, risk: set<ScoringFinding>, text: TextServices)
    returns (k: Key)
    requires ValidFindings(fs, text) && risk in Risks(fs, category, text)
    ensures k in Keys(fs, category, text) && Members(fs, k, text) == risk
  {
    hide GroupKey;
    var f :| f in fs && Counts(f) && f.category == category && Family(fs, f, text) == risk;
    CountsIsEligible(f);
    hide Counts, Eligible, ValidFindings, Family;
    FamilyIsMembers(fs, f, text);
    k := GroupKey(f, text);
  }

  /** A charge of a category that reads each group as its risk is the total over the risks. */
  lemma ChargeIsTotal(fs: set<ScoringFinding>, category: ScoringCategory, text: TextServices,
                      charge: ScoringRiskGroup -> nat, cost: set<ScoringFinding> -> nat)
    requires ValidFindings(fs, text)
    requires forall k :: k in Keys(fs, category, text) ==> cost(Members(fs, k, text)) == charge(Group(fs, k, text))
    ensures Charge(fs, category, text, charge) == Total(Risks(fs, category, text), cost)
  {
    var keys, risks := Keys(fs, category, text), Risks(fs, category, text);
    var m := ChargeMap(fs, keys, text, charge);
    var n := map risk | risk in risks :: cost(risk);
    var name := (k: Key) => Members(fs, k, text);
    hide Keys, Risks, Members, Group, ValidFindings, Cost, RawCost, GroupKey, Counts, Family, ChargeIn;
    forall k | k in m ensures name(k) in n && n[name(k)] == m[k] {
      var _ := RiskOfKey(fs, category, k, text);
    }
    forall k, k' | k in m && k' in m && name(k) == name(k') ensures k == k' {
      var f := RiskOfKey(fs, category, k, text);
      MemberHasKey(fs, k', f, text);
    }
    forall risk | risk in n ensures exists k :: k in m && name(k) == risk {
      var k := KeyOfRisk(fs, category, risk, text);
      assert k in m && name(k) == risk;
    }
    SumMapRenamed(m, n, name);
  }

  lemma MemberHasKey(fs: set<ScoringFinding>, k: Key, f: ScoringFinding, text: TextServices)
    requires f in Members(fs, k, text)
    ensures GroupKey(f, text) == k
  {
  }

  /** The engine's three charges of a category are the costs of its risks. */
  lemma ChargesAreCosts(fs: set<ScoringFinding>, category: ScoringCategory, text: TextServices)
    requires ValidFindings(fs, text)
    ensures var risks := Risks(fs, category, text);
      && Charge(fs, category, text, ConfirmedApplied) == Total(risks, Cost(Confirmed))
      && Charge(fs, category, text, PotentialApplied) == Total(risks, Cost(Potential))
      && Charge(fs, category, text, Raw) == Total(risks, RawCost)
  {
    hide Keys, Members, Group, ValidFindings, Cost, RawCost, GroupKey, Family, Charge, Total, Risks;
    forall k | k in Keys(fs, category, text)
      ensures ConfirmedApplied(Group(fs, k, text)) == Cost(Confirmed)(Members(fs, k, text))
      ensures PotentialApplied(Group(fs, k, text)) == Cost(Potential)(Members(fs, k, text))
      ensures Raw(Group(fs, k, text)) == RawCost(Members(fs, k, text))
    {
      var f := RiskOfKey(fs, category, k, text);
      GroupIsRisk(fs, f, text);
    }
    ChargeIsTotal(fs, category, text, ConfirmedApplied, Cost(Confirmed));
    ChargeIsTotal(fs, category, text, PotentialApplied, Cost(Potential));
    ChargeIsTotal(fs, category, text, Raw, RawCost);
  }

  // ----- what is left of 100

  /** Potential risks of a category count up to one bound, all its risks up to another. */
  function Bounded(category: ScoringCategory, confirmed: nat, potential: nat): nat {
    var potentialBound := if category == NetworkExposure then 18 else if category == FirewallPosture then 12 else 25;
    var bound := if category == OtherDeterministicRisk then 70 else 40;
    var total := confirmed + (if potential <= potentialBound then potential else potentialBound);
    if total <= bound then total else bound
  }

  ghost function CategoryCost(fs: set<ScoringFinding>, category: ScoringCategory, text: TextServices): nat {
    var risks := Risks(fs, category, text);
    Bounded(category, Total(risks, Cost(Confirmed)), Total(risks, Cost(Potential)))
  }

  ghost predicate HasConfirmed(fs: set<ScoringFinding>, severity: Severity) {
    exists f :: f in fs && Counts(f) && f.state == Confirmed && f.severity == severity
  }

  predicate IsConfirmedCritical(f: ScoringFinding) {
    Counts(f) && f.state == Confirmed && f.severity == Critical
  }

  ghost predicate TwoCriticals(fs: set<ScoringFinding>, text: TextServices) {
    exists f, g :: f in fs && g in fs && IsConfirmedCritical(f) && IsConfirmedCritical(g) && !SameRisk(f, g, text)
  }

  /** The most a score can be, given what is confirmed. */
  ghost function Ceiling(fs: set<ScoringFinding>, text: TextServices): nat {
    if TwoCriticals(fs, text) then 20
    else if HasConfirmed(fs, Critical) then 49
    else if HasConfirmed(fs, High) then 74
    else if HasConfirmed(fs, Medium) then 89
    else if HasConfirmed(fs, Low) then 94
    else 100
  }

  ghost function ReferenceScore(fs: set<ScoringFinding>, text: TextServices): nat {
    var cost := CategoryCost(fs, NetworkExposure, text) + CategoryCost(fs, FirewallPosture, text)
                + CategoryCost(fs, OtherDeterministicRisk, text);
    var plain := if cost >= 100 then 0 else 100 - cost;
    if plain <= Ceiling(fs, text) then plain else Ceiling(fs, text)
  }

  lemma BoundsAgree(category: ScoringCategory, confirmed: nat, potential: nat)
    ensures CappedTotal(category, confirmed, potential) == Bounded(category, confirmed, potential)
  {
  }

  lemma CategoryIsBounded(fs: set<ScoringFinding>, category: ScoringCategory, text: TextServices)
    requires ValidFindings(fs, text)
    ensures ChargedTotal(fs, category, text) == CategoryCost(fs, category, text)
  {
    ChargesAreCosts(fs, category, text);
    hide Charge, Total, Risks, ValidFindings, CappedTotal, Bounded, ChargeIn;
    var risks := Risks(fs, category, text);
    BoundsAgree(category, Total(risks, Cost(Confirmed)), Total(risks, Cost(Potential)));
  }

  lemma CriticalKey(fs: set<ScoringFinding>, f: ScoringFinding, text: TextServices)
    requires ValidFindings(fs, text) && f in fs && IsConfirmedCritical(f)
    ensures var m := ChargeMap(fs, Keys(fs, f.category, text), text, ConfirmedCritical);
      GroupKey(f, text) in m && m[GroupKey(f, text)] == 1
  {
    CountsIsEligible(f);
    GroupIsRisk(fs, f, text);
    hide GroupKey, Group, Counts, Eligible, Family, Weight, Price, RawPrice, ValidFindings;
  }

  lemma KeyOfCritical(fs: set<ScoringFinding>, category: ScoringCategory, k: Key, text: TextServices)
    returns (f: ScoringFinding)
    requires ValidFindings(fs, text)
    requires k in Keys(fs, category, text) && ConfirmedCritical(Group(fs, k, text)) > 0
    ensures f in fs && IsConfirmedCritical(f) && f.category == category && GroupKey(f, text) == k
  {
    f := RiskOfKey(fs, category, k, text);
    GroupIsRisk(fs, f, text);
    hide GroupKey, Group, Counts, Keys, Members, Family, Weight, Price, RawPrice, ValidFindings, Cost, Risks;
  }

  lemma SomeCritical(fs: set<ScoringFinding>, category: ScoringCategory, text: TextServices) returns (f: ScoringFinding)
    requires ValidFindings(fs, text) && Charge(fs, category, text, ConfirmedCritical) > 0
    ensures f in fs && IsConfirmedCritical(f) && f.category == category
  {
    hide GroupKey, Group, Keys, ValidFindings, IsConfirmedCritical;
    var k := PositiveEntry(ChargeMap(fs, Keys(fs, category, text), text, ConfirmedCritical));
    f := KeyOfCritical(fs, category, k, text);
  }

  lemma TwoInCategory(fs: set<ScoringFinding>, category: ScoringCategory, text: TextServices)
    requires ValidFindings(fs, text) && Charge(fs, category, text, ConfirmedCritical) >= 2
    ensures TwoCriticals(fs, text)
  {
    hide GroupKey, Group, Keys, ValidFindings, IsConfirmedCritical, SameRisk;
    var m := ChargeMap(fs, Keys(fs, category, text), text, ConfirmedCritical);
    var k := PositiveEntry(m);
    SumMapPick(m, k);
    var l := PositiveEntry(m - {k});
    var f := KeyOfCritical(fs, category, k, text);
    var g := KeyOfCritical(fs, category, l, text);
    KeyMeansRisk(fs, f, g, text);
  }

  lemma OtherCategoryOtherRisk(f: ScoringFinding, g: ScoringFinding, text: TextServices)
    requires f.Valid(text) && g.Valid(text) && f.category != g.category
    ensures !SameRisk(f, g, text)
  {
  }

  lemma TwoInCategories(fs: set<ScoringFinding>, c: ScoringCategory, d: ScoringCategory, text: TextServices)
    requires ValidFindings(fs, text) && c != d
    requires Charge(fs, c, text, ConfirmedCritical) > 0 && Charge(fs, d, text, ConfirmedCritical) > 0
    ensures TwoCriticals(fs, text)
  {
    var f := SomeCritical(fs, c, text);
    var g := SomeCritical(fs, d, text);
    assert f.Valid(text) && g.Valid(text);
    OtherCategoryOtherRisk(f, g, text);
    hide Charge, ValidFindings, ScoringFinding.Valid, SameRisk, IsConfirmedCritical;
  }

  lemma CriticalCounts(fs: set<ScoringFinding>, f: ScoringFinding, text: TextServices)
    requires ValidFindings(fs, text) && f in fs && IsConfirmedCritical(f)
    ensures Charge(fs, f.category, text, ConfirmedCritical) >= 1
  {
    CriticalKey(fs, f, text);
    hide GroupKey, Group, Keys, ValidFindings, IsConfirmedCritical;
    SumMapPick(ChargeMap(fs, Keys(fs, f.category, text), text, ConfirmedCritical), GroupKey(f, text));
  }

  lemma BothCount(fs: set<ScoringFinding>, f: ScoringFinding, g: ScoringFinding, text: TextServices)
    requires ValidFindings(fs, text) && f in fs && g in fs && IsConfirmedCritical(f) && IsConfirmedCritical(g)
    requires !SameRisk(f, g, text) && f.category == g.category
    ensures Charge(fs, f.category, text, ConfirmedCritical) >= 2
  {
    CriticalKey(fs, f, text);
    CriticalKey(fs, g, text);
    KeyMeansRisk(fs, f, g, text);
    hide GroupKey, Group, Keys, ValidFindings, IsConfirmedCritical, SameRisk;
    TwoEntries(ChargeMap(fs, Keys(fs, f.category, text), text, ConfirmedCritical), GroupKey(f, text),
               GroupKey(g, text));
  }

  /** The engine counts at least two critical groups exactly if two confirmed critical findings are separate risks. */
  lemma CriticalsMean(fs: set<ScoringFinding>, text: TextServices)
    requires ValidFindings(fs, text)
    ensures Criticals(fs, text) >= 2 <==> TwoCriticals(fs, text)
    ensures Criticals(fs, text) >= 1 ==> HasConfirmed(fs, Critical)
  {
    var n := Charge(fs, NetworkExposure, text, ConfirmedCritical);
    var w := Charge(fs, FirewallPosture, text, ConfirmedCritical);
    var o := Charge(fs, OtherDeterministicRisk, text, ConfirmedCritical);
    hide Charge, ValidFindings, SameRisk;
    if n > 0 { var f := SomeCritical(fs, NetworkExposure, text); }
    if w > 0 { var f := SomeCritical(fs, FirewallPosture, text); }
    if o > 0 { var f := SomeCritical(fs, OtherDeterministicRisk, text); }
    hide IsConfirmedCritical;
    if n >= 2 { TwoInCategory(fs, NetworkExposure, text); }
    if w >= 2 { TwoInCategory(fs, FirewallPosture, text); }
    if o >= 2 { TwoInCategory(fs, OtherDeterministicRisk, text); }
    if n > 0 && w > 0 { TwoInCategories(fs, NetworkExposure, FirewallPosture, text); }
    if n > 0 && o > 0 { TwoInCategories(fs, NetworkExposure, OtherDeterministicRisk, text); }
    if w > 0 && o > 0 { TwoInCategories(fs, FirewallPosture, OtherDeterministicRisk, text); }
    if f, g :| f in fs && g in fs && IsConfirmedCritical(f) && IsConfirmedCritical(g) && !SameRisk(f, g, text) {
      if f.category == g.category {
        BothCount(fs, f, g, text);
      } else {
        CriticalCounts(fs, f, text);
        CriticalCounts(fs, g, text);
      }
    }
  }

  lemma TopIsConfirmed(fs: set<ScoringFinding>)
    ensures forall s: Severity :: HasConfirmed(fs, s) <==> SomeConfirmed(fs, s)
  {
    forall f { CountsIsEligible(f); }
    hide Counts, Eligible;
  }

  /** For every valid finding set the engine's score is the reference score. */
  lemma ScoreIsReference(fs: set<ScoringFinding>, text: TextServices)
    requires ValidFindings(fs, text)
    ensures ScoreOf(fs, text).score == ReferenceScore(fs, text)
  {
    hide ScoreOf, Criticals, TwoCriticals, HasConfirmed, SomeConfirmed, ChargedTotal, CategoryCost, ValidFindings,
      TopConfirmed, GuardedScore, Ceiling;
    ScoreClosedForm(fs, text);
    CategoryIsBounded(fs, NetworkExposure, text);
    CategoryIsBounded(fs, FirewallPosture, text);
    CategoryIsBounded(fs, OtherDeterministicRisk, text);
    GuardsAgree(fs, TotalCharge(fs, text), text);
  }

  lemma GuardsAgree(fs: set<ScoringFinding>, cost: nat, text: TextServices)
    requires ValidFindings(fs, text)
    ensures var plain := if cost >= 100 then 0 else 100 - cost;
      GuardedScore(cost, TopConfirmed(fs), Criticals(fs, text))
      == if plain <= Ceiling(fs, text) then plain else Ceiling(fs, text)
  {
    CriticalsMean(fs, text);
    TopIsConfirmed(fs);
    CriticalsAreConfirmed(fs, text);
    hide Criticals, TwoCriticals, HasConfirmed, SomeConfirmed, ValidFindings;
  }

  lemma CriticalsAreConfirmed(fs: set<ScoringFinding>, text: TextServices)
    ensures TwoCriticals(fs, text) ==> HasConfirmed(fs, Critical)
  {
    hide SameRisk;
  }

  // ----- what a contributor says

  function CategoryText(c: ScoringCategory): string {
    if c == NetworkExposure then "NETWORK_EXPOSURE"
    else if c == FirewallPosture then "FIREWALL_POSTURE"
    else "OTHER_DETERMINISTIC_RISK"
  }

  function SeverityText(s: Severity): string {
    if s == Critical then "CRITICAL" else if s == High then "HIGH" else if s == Medium then "MEDIUM"
    else if s == Low then "LOW" else "INFO"
  }

  function BasisText(c: ScoringCategory, s: AssessmentState): string {
    if s == Potential then
      if c == NetworkExposure then "POTENTIAL_LISTENER_EXPOSURE"
      else if c == FirewallPosture then "POTENTIAL_FIREWALL_POLICY_RISK" else "POTENTIAL_DETERMINISTIC_RISK"
    else
      if c == NetworkExposure then "CONFIRMED_LISTENER_EXPOSURE"
      else if c == FirewallPosture then "CONFIRMED_FIREWALL_POLICY_RISK" else "CONFIRMED_DETERMINISTIC_RISK"
  }

  function StateText(s: AssessmentState): string {
    if s == Confirmed then "CONFIRMED" else if s == Potential then "POTENTIAL"
    else if s == Incomplete then "INCOMPLETE" else "INFORMATIONAL"
  }

  function BindText(b: BindExposure): string {
    if b == Loopback then "loopback" else if b == Interface then "interface" else "all_interfaces"
  }

  function ReachText(r: RemoteReachabilityState): string {
    if r == NotRemotelyBound then "NOT_REMOTELY_BOUND" else if r == PotentiallyReachable then "POTENTIALLY_REACHABLE"
    else if r == ConfirmedReachable then "CONFIRMED_REACHABLE"
    else if r == BlockedByObservedPolicy then "BLOCKED_BY_OBSERVED_POLICY" else "UNKNOWN"
  }

  /** The program as the id of its risk names it. */
  function ProgramText(id: NetworkScoringIdentity, text: TextServices): string {
    if Named(id.applicationIdentity) then "application:" + text.casefold(id.applicationIdentity.value)
    else if Named(id.processBasename) then "process:" + text.casefold(id.processBasename.value)
    else "unknown:" + id.protocol + ":" + Decimal(id.port)
  }

  /** What the id of a risk is the digest of. */
  function RiskParts(f: ScoringFinding, text: TextServices): seq<string> {
    [CategoryText(f.category), text.casefold(f.source)]
    + if f.network.None? then [f.findingId]
      else
        [ProgramText(f.network.value, text), f.network.value.protocol, BindText(f.network.value.bindExposure),
         ReachText(f.network.value.reachability), SeverityText(f.severity), StateText(f.state)]
  }

  lemma TextsAreValues()
    ensures forall c: ScoringCategory :: c.Value() == CategoryText(c)
    ensures forall s: Severity :: s.Value() == SeverityText(s)
    ensures forall s: AssessmentState :: s.Value() == StateText(s)
    ensures forall b: BindExposure :: b.Value() == BindText(b)
    ensures forall r: RemoteReachabilityState :: r.Value() == ReachText(r)
  {
  }

  lemma KeyIsParts(f: ScoringFinding, text: TextServices)
    ensures GroupKey(f, text) == RiskParts(f, text)
  {
    TextsAreValues();
    hide ScoringCategory.Value, Severity.Value, AssessmentState.Value, BindExposure.Value,
      RemoteReachabilityState.Value,
         CategoryText, SeverityText, StateText, BindText, ReachText, Decimal;
  }

  /** The contributor of a risk, except for what allocation leaves it. */
  ghost predicate Describes(c: ScoringRiskGroup, fs: set<ScoringFinding>, f: ScoringFinding, text: TextServices) {
    var risk, w := Family(fs, f, text), Weight(f.severity, f.state);
    && f in fs && Counts(f)
    && c.category == f.category && c.severity == f.severity && c.state == f.state
    && c.groupId == "score-group:" + text.sha256(NulJoin(RiskParts(f, text)))
    && c.basis.Value() == BasisText(f.category, f.state)
    && (forall x :: x in c.findingIds <==> exists g :: g in risk && g.findingId == x)
    && Distinct(c.findingIds) && Sorted(c.findingIds, StrLe)
    && |c.atomicPenalties| == |risk| && (forall p :: p in c.atomicPenalties ==> p == w)
    && c.basePenalty == w
    && c.rawPenalty == RawPrice(w, |PortsOf(risk)|)
    && c.appliedPenalty <= Price(w, |PortsOf(risk)|)
  }

  lemma BasisIsText(c: ScoringCategory, s: AssessmentState)
    ensures BasisFor(c, s).Value() == BasisText(c, s)
  {
  }

  lemma {:induction false} RepeatIs(b: nat, n: nat)
    ensures |Repeat(b, n)| == n && forall p :: p in Repeat(b, n) ==> p == b
  {
    if n > 0 { RepeatIs(b, n - 1); }
  }

  lemma IdOfGroup(fs: set<ScoringFinding>, f: ScoringFinding, text: TextServices)
    requires f in Members(fs, GroupKey(f, text), text)
    ensures Group(fs, GroupKey(f, text), text).groupId == "score-group:" + text.sha256(NulJoin(GroupKey(f, text)))
  {
    GroupIdentity(fs, GroupKey(f, text), text);
    hide GroupKey, NulJoin, Group;
    assert "score-group" + ":" == "score-group:";
  }

  lemma GroupDescribes(fs: set<ScoringFinding>, f: ScoringFinding, text: TextServices)
    requires ValidFindings(fs, text) && f in fs && Counts(f)
    ensures Describes(Group(fs, GroupKey(f, text), text), fs, f, text)
  {
    CountsIsEligible(f);
    FamilyIsMembers(fs, f, text);
    GroupIsRisk(fs, f, text);
    BasisIsText(f.category, f.state);
    KeyIsParts(f, text);
    var key := GroupKey(f, text);
    assert f in Members(fs, key, text);
    IdOfGroup(fs, f, text);
    GroupIds(fs, key, text);
    GroupFacts(fs, key, f, text);
    WeightIsPenalty(f);
    RepeatIs(AtomicPenalty(f), |Members(fs, key, text)|);
    hide Group, GroupKey, Weight, Price, RawPrice, Counts, Eligible, BasisFor, BasisText, Repeat, StrLe, ValidFindings,
      NulJoin, RiskParts, ScoringBasisCode.Value, SameRisk, Distinct, Sorted;
  }

  lemma CappingDescribes(c: ScoringRiskGroup, g: ScoringRiskGroup, fs: set<ScoringFinding>, f: ScoringFinding,
                         text: TextServices)
    requires SameButApplied(c, g) && Describes(g, fs, f, text)
    ensures Describes(c, fs, f, text)
  {
    hide Weight, Price, RawPrice, Counts, Family, StrLe, BasisText, Distinct, Sorted, ScoringBasisCode.Value, PortsOf,
      RiskParts, NulJoin;
  }

  /** Every contributor of a score describes one of the risks, in full detail. */
  lemma ContributorDescribesRisk(fs: set<ScoringFinding>, c: ScoringRiskGroup, text: TextServices)
    returns (f: ScoringFinding)
    requires ValidFindings(fs, text) && c in ScoreOf(fs, text).contributors
    ensures Describes(c, fs, f, text) && f.findingId in c.findingIds
  {
    ContributorsAreSorted(fs, text);
    assert c in multiset(ScoreOf(fs, text).contributors);
    hide ScoreOf, Contributors, ValidFindings, Describes, Group, GroupKey, Eligible, SameButApplied;
    f := ContributorHasFinding(fs, c, text);
    CountsIsEligible(f);
    GroupDescribes(fs, f, text);
    CappingDescribes(c, Group(fs, GroupKey(f, text), text), fs, f, text);
    CitesMembers(fs, c, f, f, text);
  }

  // ----- who is served first

  predicate Graver(a: Severity, b: Severity) {
    || (a == Critical && b != Critical)
    || (a == High && b != Critical && b != High)
    || (a == Medium && (b == Low || b == Info))
    || (a == Low && b == Info)
  }

  /** Confirmed before potential, then the graver, then the dearer, then the greater id. */
  predicate Outranks(a: ScoringRiskGroup, b: ScoringRiskGroup) {
    if a.state != b.state then a.state == Confirmed
    else if a.severity != b.severity then Graver(a.severity, b.severity)
    else if a.rawPenalty != b.rawPenalty then a.rawPenalty > b.rawPenalty
    else a.groupId != b.groupId && StrLe(b.groupId, a.groupId)
  }

  lemma OutranksIsStrict(a: ScoringRiskGroup, b: ScoringRiskGroup)
    requires (a.state == Confirmed || a.state == Potential) && (b.state == Confirmed || b.state == Potential)
    requires Outranks(a, b)
    ensures !AllocatedBefore(b, a) && (a.state != Potential || b.state == Potential)
  {
    StrLeIsTotal();
    hide StrLe;
  }

  lemma ContributorIsCapped(fs: set<ScoringFinding>, c: ScoringRiskGroup, f: ScoringFinding, text: TextServices)
    requires ValidFindings(fs, text) && c in Contributors(fs, text) && Represents(c, f, fs, text)
    ensures c in Capped(CategoryGroups(fs, c.category, text), c.category)
  {
    hide Group, GroupKey, Capped, CategoryGroups, Members;
    var d :| c in Capped(CategoryGroups(fs, d, text), d);
    var g := CappedHasGroup(CategoryGroups(fs, d, text), d, c);
    var h := GroupHasFinding(fs, d, g, text);
    GroupFacts(fs, GroupKey(h, text), h, text);
  }

  /**
   * Points go by rank: within a category, whoever outranks a contributor that got any
   * points was served the full price of its risk.
   */
  lemma PointsGoByRank(fs: set<ScoringFinding>, a: ScoringRiskGroup, b: ScoringRiskGroup, text: TextServices)
    returns (f: ScoringFinding)
    requires ValidFindings(fs, text)
    requires a in ScoreOf(fs, text).contributors && b in ScoreOf(fs, text).contributors
    requires a.category == b.category && Outranks(a, b) && b.appliedPenalty > 0
    ensures Describes(a, fs, f, text) && f.findingId in a.findingIds
    ensures a.appliedPenalty == Price(Weight(f.severity, f.state), |PortsOf(Family(fs, f, text))|)
  {
    ContributorsAreSorted(fs, text);
    assert a in multiset(ScoreOf(fs, text).contributors) && b in multiset(ScoreOf(fs, text).contributors);
    StatesOfContributors(fs, a, text);
    StatesOfContributors(fs, b, text);
    OutranksIsStrict(a, b);
    hide ScoreOf, Contributors, ValidFindings, Describes, Group, GroupKey, Eligible, Capped, CategoryGroups, Outranks,
      AllocatedBefore, Weight, Price, Family;
    var p := ContributorHasFinding(fs, a, text);
    var q := ContributorHasFinding(fs, b, text);
    ContributorIsCapped(fs, a, p, text);
    ContributorIsCapped(fs, b, q, text);
    var full := CappedByPriority(CategoryGroups(fs, a.category, text), a.category, a, b);
    f := GroupHasFinding(fs, a.category, full, text);
    CountsIsEligible(f);
    GroupDescribes(fs, f, text);
    GroupIsRisk(fs, f, text);
    GroupIds(fs, GroupKey(f, text), text);
  }

  lemma StatesOfContributors(fs: set<ScoringFinding>, c: ScoringRiskGroup, text: TextServices)
    requires ValidFindings(fs, text) && c in Contributors(fs, text)
    ensures c.state == Confirmed || c.state == Potential
  {
    hide Contributors, Group, GroupKey, ValidFindings;
    var f := ContributorHasFinding(fs, c, text);
    GroupFacts(fs, GroupKey(f, text), f, text);
  }

  // ----- the result as a whole

  /** A category of the result. */
  ghost predicate CategoryIs(b: CategoryBreakdown, fs: set<ScoringFinding>, c: ScoringCategory, text: TextServices) {
    && b.category == c
    && b.rawPenalty == Total(Risks(fs, c, text), RawCost)
    && b.appliedPenalty == CategoryCost(fs, c, text)
    && (b.saturated <==> b.appliedPenalty < b.rawPenalty)
  }

  predicate LevelIs(level: string, score: nat) {
    && (level == "LOW" <==> 90 <= score) && (level == "MODERATE" <==> 75 <= score < 90)
    && (level == "HIGH" <==> 50 <= score < 75) && (level == "CRITICAL" <==> score < 50)
  }

  lemma CategoryIsReference(fs: set<ScoringFinding>, c: ScoringCategory, text: TextServices)
    requires ValidFindings(fs, text)
    ensures CategoryIs(BreakdownOf(CategoryGroups(fs, c, text), c), fs, c, text)
  {
    CategoryCharge(fs, c, text, Raw);
    ChargesAreCosts(fs, c, text);
    CategoryIsBounded(fs, c, text);
    BreakdownClosedForm(fs, c, text);
    hide Capped, CategoryGroups, Charge, Total, Risks, ValidFindings, SumBy, CategoryCost, ChargedTotal;
  }

  /** Everything the result says besides its contributors. */
  lemma ResultIsReference(fs: set<ScoringFinding>, text: TextServices)
    requires ValidFindings(fs, text)
    ensures var r := ScoreOf(fs, text);
      && r.score == ReferenceScore(fs, text)
      && r.totalPenalty == 100 - r.score
      && |r.categories| == 3 && CategoryIs(r.categories[0], fs, NetworkExposure, text)
      && CategoryIs(r.categories[1], fs, FirewallPosture, text)
      && CategoryIs(r.categories[2], fs, OtherDeterministicRisk, text)
      && LevelIs(r.riskLevel, r.score)
  {
    ScoreIsReference(fs, text);
    ScoreClosedForm(fs, text);
    CategoryIsReference(fs, NetworkExposure, text);
    CategoryIsReference(fs, FirewallPosture, text);
    CategoryIsReference(fs, OtherDeterministicRisk, text);
    LevelsOf(ScoreOf(fs, text).score);
    CategoriesListed(fs, text);
    hide *;
  }

  lemma CategoriesListed(fs: set<ScoringFinding>, text: TextServices)
    ensures ScoreOf(fs, text).categories
      == [BreakdownOf(CategoryGroups(fs, NetworkExposure, text), NetworkExposure),
          BreakdownOf(CategoryGroups(fs, FirewallPosture, text), FirewallPosture),
          BreakdownOf(CategoryGroups(fs, OtherDeterministicRisk, text), OtherDeterministicRisk)]
    ensures ScoreOf(fs, text).riskLevel == RiskLevel(ScoreOf(fs, text).score)
  {
    hide Contributors, BreakdownOf, CategoryGroups, HighestConfirmed, RiskLevel, Sort, SumBy, GuardedScore, CountOf;
  }

  lemma LevelsOf(score: nat)
    ensures LevelIs(RiskLevel(score), score)
  {
    assert |"LOW"| != |"MODERATE"| && |"HIGH"| == 4 && |"CRITICAL"| == 8;
    assert "CRITICAL"[0] != "MODERATE"[0];
  }

  /** The severities counted, all findings included, and the top confirmed one. */
  lemma ResultCounts(fs: set<ScoringFinding>, text: TextServices)
    requires ValidFindings(fs, text)
    ensures var r := ScoreOf(fs, text);
      && r.counts == [(Critical, |set f | f in fs && f.severity == Critical|),
                      (High, |set f | f in fs && f.severity == High|),
                      (Medium, |set f | f in fs && f.severity == Medium|),
                      (Low, |set f | f in fs && f.severity == Low|),
                      (Info, |set f | f in fs && f.severity == Info|)]
    ensures var top := ScoreOf(fs, text).highestConfirmed;
      && (top.None? <==> !exists f :: f in fs && Counts(f) && f.state == Confirmed)
      && (top.Some? ==> HasConfirmed(fs, top.value) && forall s :: HasConfirmed(fs, s) ==> !Graver(s, top.value))
  {
    ScoreClosedForm(fs, text);
    TopIsConfirmed(fs);
    TopIsGravest(fs);
    CountsListed(fs, text);
    hide ScoreOf, CountOf, ValidFindings, TopConfirmed, HasConfirmed, Counts;
  }

  lemma TopIsGravest(fs: set<ScoringFinding>)
    ensures var top := TopConfirmed(fs);
      && (top.None? <==> !exists f :: f in fs && Counts(f) && f.state == Confirmed)
      && (top.Some? ==> HasConfirmed(fs, top.value) && forall s :: HasConfirmed(fs, s) ==> !Graver(s, top.value))
  {
    TopIsConfirmed(fs);
    hide SomeConfirmed;
    if f :| f in fs && Counts(f) && f.state == Confirmed { assert HasConfirmed(fs, f.severity); }
  }

  lemma CountsListed(fs: set<ScoringFinding>, text: TextServices)
    ensures ScoreOf(fs, text).counts
      == [CountOf(fs, Critical), CountOf(fs, High), CountOf(fs, Medium), CountOf(fs, Low), CountOf(fs, Info)]
    ensures forall s :: CountOf(fs, s) == (s, |set f | f in fs && f.severity == s|)
  {
    hide Contributors, BreakdownOf, CategoryGroups, HighestConfirmed, RiskLevel, Sort, SumBy, GuardedScore;
    forall s ensures CountOf(fs, s) == (s, |set f | f in fs && f.severity == s|) {
      assert WithSeverity(fs, s) == set f | f in fs && f.severity == s;
    }
  }
}
