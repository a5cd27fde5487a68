/** The Scoring v2 engine: grouping, allocation and score loops over a list of findings. */
module ScoringEngine {
  import opened Common
  import opened Orders
  import opened Text
  import opened Grouping
  import opened Vocabulary
  import opened ScoringContracts
  import opened ScoringPenalties
  import opened ScoringModel
  import ScoringLaws
  import ScoringReference

  datatype ScoringError = DuplicateFindingIds

  predicate AtLeast(a: nat, b: nat) { a >= b }

  function MaxOf(s: seq<nat>): nat {
    if s == [] then 0
    else
      var rest := MaxOf(s[1..]);
      if rest <= s[0] then s[0] else rest
  }

  function EndpointKey(f: ScoringFinding, text: TextServices): Key {
    GroupKey(f, text) + (if f.network.Some? then [Decimal(f.network.value.port)] else [])
  }

  function Filter<T>(s: seq<T>, keep: T -> bool): seq<T> {
    if s == [] then [] else (if keep(s[0]) then [s[0]] else []) + Filter(s[1..], keep)
  }

  lemma {:induction false} FilterFacts<T>(s: seq<T>, keep: T -> bool)
    ensures forall x :: x in Filter(s, keep) <==> x in s && keep(x)
    ensures Distinct(s) ==> Distinct(Filter(s, keep))
  {
    if s != [] {
      FilterFacts(s[1..], keep);
      assert s == [s[0]] + s[1..];
    }
  }

  lemma {:induction false} FilterConcat<T>(a: seq<T>, b: seq<T>, keep: T -> bool)
    ensures Filter(a + b, keep) == Filter(a, keep) + Filter(b, keep)
  {
    if a == [] {
      assert a + b == b;
    } else {
      FilterConcat(a[1..], b, keep);
      var c := a + b;
      assert c[0] == a[0] && c[1..] == a[1..] + b;
      assert Filter(c, keep) == (if keep(a[0]) then [a[0]] else []) + Filter(c[1..], keep);
      assert Filter(a, keep) == (if keep(a[0]) then [a[0]] else []) + Filter(a[1..], keep);
      hide Filter;
    }
  }

  lemma {:induction false} FilterAll<T>(s: seq<T>, keep: T -> bool)
    ensures (forall x :: x in s ==> keep(x)) ==> Filter(s, keep) == s
    ensures (forall x :: x in s ==> !keep(x)) ==> Filter(s, keep) == []
  {
    if s != [] {
      assert s == [s[0]] + s[1..];
      FilterAll(s[1..], keep);
      assert forall x :: x in s[1..] ==> x in s;
    }
  }

  // ----- equal penalties

  ghost predicate AllEqual(s: seq<nat>, b: nat) {
    forall i :: 0 <= i < |s| ==> s[i] == b
  }

  lemma {:induction false} ConstantIsRepeat(s: seq<nat>, b: nat)
    requires AllEqual(s, b)
    ensures s == Repeat(b, |s|)
    ensures MaxOf(s) == if s == [] then 0 else b
  {
    if s != [] {
      assert s == [s[0]] + s[1..];
      ConstantIsRepeat(s[1..], b);
    }
  }

  lemma SortedConstant(s: seq<nat>, b: nat)
    requires AllEqual(s, b)
    ensures |Sort(s, AtLeast)| == |s| && AllEqual(Sort(s, AtLeast), b)
    ensures Sort(s, AtLeast) == Repeat(b, |s|)
    ensures MaxOf(Sort(s, AtLeast)) == if s == [] then 0 else b
  {
    var t := Sort(s, AtLeast);
    SortIsPermutation(s, AtLeast);
    forall i | 0 <= i < |t| ensures t[i] == b {
      assert t[i] in s;
    }
    ConstantIsRepeat(t, b);
  }

  // ----- endpoints are ports

  lemma {:induction false} PortKeysCount(ports: set<nat>, key: Key, keys: set<Key>)
    requires forall k :: k in keys <==> exists p :: p in ports && k == key + [Decimal(p)]
    ensures |keys| == |ports|
    decreases |ports|
  {
    if ports == {} {
      assert keys == {};
    } else {
      var p :| p in ports;
      var k := key + [Decimal(p)];
      forall q | q in ports && key + [Decimal(q)] == k ensures q == p {
        assert (key + [Decimal(q)])[|key|] == k[|key|];
        DecimalInjective(p, q);
      }
      assert k in keys;
      forall k' ensures k' in keys - {k} <==> exists q :: q in ports - {p} && k' == key + [Decimal(q)] {
        if k' in keys - {k} {
          var q :| q in ports && k' == key + [Decimal(q)];
          assert q in ports - {p};
        }
      }
      PortKeysCount(ports - {p}, key, keys - {k});
    }
  }

  lemma EndpointCount(ms: set<ScoringFinding>, members: seq<ScoringFinding>, key: Key, text: TextServices,
                      endpointKey: ScoringFinding -> Key)
    requires ms == Elems(members) && members != []
    requires forall f :: f in members ==> GroupKey(f, text) == key && f.network.Some?
    requires forall f :: endpointKey(f) == EndpointKey(f, text)
    ensures |FirstSeen(members, endpointKey)| == Endpoints(ms)
  {
    var order := FirstSeen(members, endpointKey);
    FirstSeenFacts(members, endpointKey);
    DistinctLength(order);
    forall k ensures k in Elems(order) <==> exists p :: p in Ports(ms) && k == key + [Decimal(p)] {
      if k in order {
        var f :| f in members && endpointKey(f) == k;
        assert f.network.value.port in Ports(ms);
      }
      if exists p :: p in Ports(ms) && k == key + [Decimal(p)] {
        var p :| p in Ports(ms) && k == key + [Decimal(p)];
        var f :| f in ms && f.network.Some? && f.network.value.port == p;
        assert endpointKey(f) == k;
      }
    }
    PortKeysCount(Ports(ms), key, Elems(order));
    assert members[0].network.value.port in Ports(ms);
  }

  /** One penalty per endpoint, that of the first finding filed under it. */
  method EndpointPenalties(members: seq<ScoringFinding>, text: TextServices, ghost key: Key, ghost b: nat)
    returns (penalties: seq<nat>)
    requires members != [] && forall f :: f in members ==> AtomicPenalty(f) == b
    requires forall f :: f in members ==> GroupKey(f, text) == key && f.network.Some?
    ensures AllEqual(penalties, b) && |penalties| == Endpoints(Elems(members))
  {
    var endpointKey := (f: ScoringFinding) => EndpointKey(f, text);
    var order, endpoints := GroupBy(members, endpointKey);
    EndpointCount(Elems(members), members, key, text, endpointKey);
    hide EndpointKey, GroupKey, AtomicPenalty, Endpoints, FirstSeen, Bucket;
    penalties := [];
    for i := 0 to |order|
      invariant |penalties| == i && AllEqual(penalties, b)
    {
      var items := endpoints[order[i]];
      EndpointHasFirst(members, endpointKey, i);
      penalties := penalties + [AtomicPenalty(items[0])];
    }
  }

  lemma EndpointHasFirst(members: seq<ScoringFinding>, endpointKey: ScoringFinding -> Key, i: nat)
    requires i < |FirstSeen(members, endpointKey)|
    ensures var items := Bucket(members, endpointKey, FirstSeen(members, endpointKey)[i]);
      items != [] && items[0] in members
  {
    FirstSeenFacts(members, endpointKey);
    hide FirstSeen, Bucket;
    var k := FirstSeen(members, endpointKey)[i];
    assert k in FirstSeen(members, endpointKey);
    BucketFacts(members, endpointKey, k);
    var f :| f in members && endpointKey(f) == k;
    assert f in Bucket(members, endpointKey, k);
    assert Bucket(members, endpointKey, k)[0] in Bucket(members, endpointKey, k);
  }

  method RawPenalty(penalties: seq<nat>, ghost b: nat) returns (raw: nat)
    requires AllEqual(penalties, b)
    ensures raw == FamilyRaw(b, |penalties|)
  {
    raw := 0;
    for i := 0 to |penalties|
      invariant raw == FamilyRaw(b, i)
    {
      raw := raw + WeightedPenalty(penalties[i], i);
    }
  }

  method MemberColumns(members: seq<ScoringFinding>, ghost b: nat) returns (atomic: seq<nat>, ids: seq<string>)
    requires forall f :: f in members ==> AtomicPenalty(f) == b
    ensures |atomic| == |ids| == |members| && AllEqual(atomic, b)
    ensures forall j :: 0 <= j < |ids| ==> ids[j] == members[j].findingId
  {
    hide AtomicPenalty;
    atomic, ids := [], [];
    for i := 0 to |members|
      invariant |atomic| == |ids| == i && AllEqual(atomic, b)
      invariant forall j :: 0 <= j < i ==> ids[j] == members[j].findingId
    {
      atomic := atomic + [AtomicPenalty(members[i])];
      ids := ids + [members[i].findingId];
    }
  }

  ghost predicate IsFamily(key: Key, members: seq<ScoringFinding>, fs: set<ScoringFinding>, text: TextServices) {
    && members != [] && Distinct(members)
    && Elems(members) == Members(fs, key, text) != {}
    && forall f :: f in members ==> f.category == NetworkExposure
  }

  lemma FamilyAgrees(key: Key, members: seq<ScoringFinding>, fs: set<ScoringFinding>, text: TextServices)
    requires ValidFindings(fs, text) && IsFamily(key, members, fs, text)
    ensures forall f :: f in members ==>
      AtomicPenalty(f) == AtomicPenalty(members[0]) && GroupKey(f, text) == key && f.network.Some?
  {
    forall f | f in members
      ensures AtomicPenalty(f) == AtomicPenalty(members[0]) && GroupKey(f, text) == key && f.network.Some?
    {
      assert f in Elems(members) && members[0] in Elems(members);
      MembersAgree(members[0], f, text);
    }
  }

  method FamilyGroup(key: Key, members: seq<ScoringFinding>, text: TextServices, ghost fs: set<ScoringFinding>)
    returns (group: ScoringRiskGroup)
    requires ValidFindings(fs, text) && IsFamily(key, members, fs, text)
    ensures group == Group(fs, key, text)
  {
    var representative := members[0];
    ghost var b := AtomicPenalty(representative);
    assert representative in Elems(members);
    GroupFacts(fs, key, representative, text);
    GroupIdentity(fs, key, text);
    FamilyAgrees(key, members, fs, text);
    hide Group, GroupKey, AtomicPenalty, Endpoints, Distinct, ValidFindings;
    var penalties := EndpointPenalties(members, text, key, b);
    var endpointPenalties := Sort(penalties, AtLeast);
    SortedConstant(penalties, b);
    var atomic, ids := MemberColumns(members, b);
    SortedConstant(atomic, b);
    DistinctLength(members);
    IdsAreListed(Elems(members), members, ids, fs, text);
    var base := MaxOf(endpointPenalties);
    var raw := RawPenalty(endpointPenalties, b);
    EndpointsPositive(Elems(members));
    var applied := Min(raw, FamilyCap(base));
    group := ScoringRiskGroup(StableGroupId(key, text), NetworkExposure, Sort(ids, StrLe),
                              representative.severity, representative.state, Sort(atomic, AtLeast),
                              base, raw, applied, BasisFor(representative.category, representative.state));
  }

  lemma EndpointsPositive(ms: set<ScoringFinding>)
    ensures Endpoints(ms) >= 1
  {
    if Ports(ms) != {} {
      var p :| p in Ports(ms);
      SubsetCardinality({p}, Ports(ms));
    }
  }

  lemma IdsAreListed(ms: set<ScoringFinding>, members: seq<ScoringFinding>, ids: seq<string>,
                     fs: set<ScoringFinding>, text: TextServices)
    requires ValidFindings(fs, text) && ms <= fs && Elems(members) == ms && Distinct(members)
    requires |ids| == |members| && forall j :: 0 <= j < |ids| ==> ids[j] == members[j].findingId
    ensures Sort(ids, StrLe) == Listing(Ids(ms), StrLe)
  {
    StrLeIsTotal();
    forall i, j | 0 <= i < j < |ids| ensures ids[i] != ids[j] {
      assert members[i] in ms && members[j] in ms;
    }
    forall x ensures x in ids <==> x in Ids(ms) {
      if x in ids {
        var j :| 0 <= j < |ids| && ids[j] == x;
        assert members[j] in ms;
      }
      if x in Ids(ms) {
        var f :| f in ms && f.findingId == x;
        var j :| 0 <= j < |members| && members[j] == f;
        assert ids[j] == x;
      }
    }
    SortIsListing(ids, Ids(ms), StrLe);
  }

  /** Eligible findings only, each once, all valid. */
  ghost predicate Scoreable(findings: seq<ScoringFinding>, text: TextServices) {
    && ValidFindings(Elems(findings), text)
    && Distinct(findings)
    && forall f :: f in findings ==> Eligible(f)
  }

  lemma SortedFamilies(findings: seq<ScoringFinding>, key: ScoringFinding -> Key, text: TextServices)
    requires Scoreable(findings, text)
    requires forall f :: key(f) == GroupKey(f, text)
    requires forall f :: f in findings ==> f.category == NetworkExposure
    ensures Sort(FirstSeen(findings, key), KeyLe) == KeyList(Elems(findings), NetworkExposure, text)
    ensures forall k :: k in FirstSeen(findings, key) <==> k in Keys(Elems(findings), NetworkExposure, text)
  {
    hide GroupKey, Eligible, ValidFindings, FirstSeen, Sort;
    var fs := Elems(findings);
    FirstSeenFacts(findings, key);
    KeyLeIsTotal();
    KeyListFacts(fs, NetworkExposure, text);
    forall k ensures k in FirstSeen(findings, key) <==> k in Keys(fs, NetworkExposure, text) {
      if k in FirstSeen(findings, key) {
        var f :| f in findings && key(f) == k;
        assert f in fs;
      }
    }
    SortIsListing(FirstSeen(findings, key), Keys(fs, NetworkExposure, text), KeyLe);
  }

  lemma FamilyBucket(findings: seq<ScoringFinding>, key: ScoringFinding -> Key, k: Key, text: TextServices)
    requires Scoreable(findings, text)
    requires forall f :: key(f) == GroupKey(f, text)
    requires forall f :: f in findings ==> f.category == NetworkExposure
    requires k in Keys(Elems(findings), NetworkExposure, text)
    ensures IsFamily(k, Bucket(findings, key, k), Elems(findings), text)
  {
    hide GroupKey, Eligible, ValidFindings, Bucket;
    BucketFacts(findings, key, k);
    assert Elems(Bucket(findings, key, k)) == Members(Elems(findings), k, text);
    KeyListFacts(Elems(findings), NetworkExposure, text);
    assert Bucket(findings, key, k) != [];
  }

  method FamilyGroups(keys: seq<Key>, families: map<Key, seq<ScoringFinding>>, text: TextServices,
                      ghost fs: set<ScoringFinding>)
    returns (result: seq<ScoringRiskGroup>)
    requires ValidFindings(fs, text) && keys == KeyList(fs, NetworkExposure, text)
    requires forall k :: k in keys ==> k in families && IsFamily(k, families[k], fs, text)
    ensures result == CategoryGroups(fs, NetworkExposure, text)
  {
    CategoryLength(fs, NetworkExposure, text);
    hide Group, KeyList, IsFamily, ValidFindings, CategoryGroups;
    result := [];
    for i := 0 to |keys|
      invariant result == CategoryGroups(fs, NetworkExposure, text)[..i]
    {
      ghost var _ := CategoryGroupAt(fs, NetworkExposure, text, i);
      var group := FamilyGroup(keys[i], families[keys[i]], text, fs);
      result := result + [group];
    }
  }

  method NetworkGroups(findings: seq<ScoringFinding>, text: TextServices) returns (result: seq<ScoringRiskGroup>)
    requires Scoreable(findings, text)
    requires forall f :: f in findings ==> f.category == NetworkExposure
    ensures result == CategoryGroups(Elems(findings), NetworkExposure, text)
  {
    var key := (f: ScoringFinding) => GroupKey(f, text);
    var order, families := GroupBy(findings, key);
    var keys := Sort(order, KeyLe);
    SortedFamilies(findings, key, text);
    KeyListFacts(Elems(findings), NetworkExposure, text);
    hide GroupKey, KeyList, Sort, FirstSeen, Bucket, Keys, CategoryGroups, IsFamily, Distinct;
    forall k | k in keys ensures k in families && IsFamily(k, families[k], Elems(findings), text) {
      FamilyBucket(findings, key, k, text);
    }
    result := FamilyGroups(keys, families, text, Elems(findings));
  }

  predicate FindingIdLe(a: ScoringFinding, b: ScoringFinding) { StrLe(a.findingId, b.findingId) }

  ghost function GroupFor(fs: set<ScoringFinding>, f: ScoringFinding, text: TextServices): ScoringRiskGroup
    requires f in fs && Eligible(f)
  {
    assert f in Members(fs, GroupKey(f, text), text);
    Group(fs, GroupKey(f, text), text)
  }

  lemma AtomicGroupFacts(fs: set<ScoringFinding>, f: ScoringFinding, text: TextServices)
    requires ValidFindings(fs, text) && f in fs && Eligible(f) && f.category != NetworkExposure
    ensures GroupFor(fs, f, text) == ScoringRiskGroup(
      StableGroupId(GroupKey(f, text), text), f.category, [f.findingId], f.severity, f.state,
      [AtomicPenalty(f)], AtomicPenalty(f), AtomicPenalty(f), AtomicPenalty(f), BasisFor(f.category, f.state))
  {
    var key := GroupKey(f, text);
    var ms := Members(fs, key, text);
    forall g | g in ms ensures g == f { MembersAgree(f, g, text); }
    assert ms == {f};
    GroupFacts(fs, key, f, text);
    assert Ids(ms) == {f.findingId};
    assert Ports(ms) == {};
    assert IsTableWeight(AtomicPenalty(f)) by {
      assert AtomicPenalty(f) == ConfirmedWeight(f.severity) || AtomicPenalty(f) == PotentialWeight(f.severity);
    }
    FamilyClosedForm(AtomicPenalty(f), 1);
    assert Repeat(AtomicPenalty(f), 1) == [AtomicPenalty(f)];
    StrLeIsTotal();
    ListingFacts({f.findingId}, StrLe);
    assert Listing(Ids(ms), StrLe)[0] in Listing(Ids(ms), StrLe);
  }

  method AtomicGroups(findings: seq<ScoringFinding>, text: TextServices) returns (result: seq<ScoringRiskGroup>)
    requires Scoreable(findings, text)
    requires forall f :: f in findings ==> f.category != NetworkExposure
    ensures |result| == |Sort(findings, FindingIdLe)|
    ensures forall i :: 0 <= i < |result| ==>
      Sort(findings, FindingIdLe)[i] in findings
      && result[i] == GroupFor(Elems(findings), Sort(findings, FindingIdLe)[i], text)
  {
    var order := Sort(findings, FindingIdLe);
    SortIsPermutation(findings, FindingIdLe);
    hide Sort, Group, Eligible;
    result := [];
    for i := 0 to |order|
      invariant |result| == i
      invariant forall j ::
        0 <= j < i ==> order[j] in findings && result[j] == GroupFor(Elems(findings), order[j], text)
    {
      var f := order[i];
      assert f in order && f in findings;
      var penalty := AtomicPenalty(f);
      AtomicGroupFacts(Elems(findings), f, text);
      result := result + [ScoringRiskGroup(
        StableGroupId([f.category.Value(), text.casefold(f.source), f.findingId], text),
        f.category, [f.findingId], f.severity, f.state, [penalty], penalty, penalty, penalty,
        BasisFor(f.category, f.state))];
    }
  }

  // ----- the allocator loop

  function Replace(groups: seq<ScoringRiskGroup>, applied: map<string, nat>): (r: seq<ScoringRiskGroup>)
    requires forall g :: g in groups ==> g.groupId in applied
    ensures |r| == |groups|
    ensures forall i :: 0 <= i < |r| ==> r[i] == groups[i].(appliedPenalty := applied[groups[i].groupId])
  {
    if groups == [] then []
    else
      assert groups[0] in groups;
      [groups[0].(appliedPenalty := applied[groups[0].groupId])] + Replace(groups[1..], applied)
  }

  lemma ReplacedIn(a: seq<ScoringRiskGroup>, b: seq<ScoringRiskGroup>, applied: map<string, nat>, x: ScoringRiskGroup)
    requires forall g :: g in a ==> g in b
    requires forall g :: g in b ==> g.groupId in applied
    requires x in Replace(a, applied)
    ensures x in Replace(b, applied)
  {
    var i :| 0 <= i < |a| && Replace(a, applied)[i] == x;
    assert a[i] in b;
    var j :| 0 <= j < |b| && b[j] == a[i];
    assert Replace(b, applied)[j] == x;
  }

  lemma ReplacePermutation(a: seq<ScoringRiskGroup>, b: seq<ScoringRiskGroup>, applied: map<string, nat>)
    requires DistinctIds(a) && DistinctIds(b) && multiset(a) == multiset(b)
    requires forall g :: g in a ==> g.groupId in applied
    ensures forall g :: g in b ==> g.groupId in applied
    ensures multiset(Replace(a, applied)) == multiset(Replace(b, applied))
  {
    forall g ensures g in a <==> g in b {
      assert g in a <==> g in multiset(a);
      assert g in b <==> g in multiset(b);
    }
    hide Replace;
    forall x ensures x in Replace(a, applied) <==> x in Replace(b, applied) {
      if x in Replace(a, applied) { ReplacedIn(a, b, applied, x); }
      if x in Replace(b, applied) { ReplacedIn(b, a, applied, x); }
    }
    DistinctSameElems(Replace(a, applied), Replace(b, applied));
  }

  ghost predicate Records(applied: map<string, nat>, order: seq<ScoringRiskGroup>, granted: seq<ScoringRiskGroup>,
                          n: nat)
    requires n <= |order| == |granted|
  {
    forall j :: 0 <= j < n ==> order[j].groupId in applied && applied[order[j].groupId] == granted[j].appliedPenalty
  }

  lemma RecordMore(applied: map<string, nat>, order: seq<ScoringRiskGroup>, granted: seq<ScoringRiskGroup>, i: nat)
    requires i < |order| == |granted| && DistinctIds(order) && Records(applied, order, granted, i)
    ensures Records(applied[order[i].groupId := granted[i].appliedPenalty], order, granted, i + 1)
  {
  }

  /** The greedy loop over the allocation order. */
  method Allocate(order: seq<ScoringRiskGroup>, category: ScoringCategory) returns (appliedById: map<string, nat>)
    requires DistinctIds(order)
    ensures Records(appliedById, order, Grant(order, PotentialCap(category), TotalCap(category)), |order|)
  {
    var potentialRemaining: nat, categoryRemaining: nat := PotentialCap(category), TotalCap(category);
    appliedById := map[];
    ghost var granted := Grant(order, PotentialCap(category), TotalCap(category));
    assert order[0..] == order && granted[0..] == granted;
    for i := 0 to |order|
      invariant granted[i..] == Grant(order[i..], potentialRemaining, categoryRemaining)
      invariant Records(appliedById, order, granted, i)
    {
      var group := order[i];
      GrantStep(order, i, potentialRemaining, categoryRemaining);
      RecordMore(appliedById, order, granted, i);
      hide Grant, Records, DistinctIds;
      ghost var left := granted[i..];
      assert left[0] == granted[i] && left[1..] == granted[i + 1..];
      var available := group.appliedPenalty;
      if group.state == Potential {
        available := Min(available, potentialRemaining);
        potentialRemaining := potentialRemaining - available;
      }
      var applied := Min(available, categoryRemaining);
      categoryRemaining := categoryRemaining - applied;
      appliedById := appliedById[group.groupId := applied];
    }
  }

  method CapGroups(groups: seq<ScoringRiskGroup>, category: ScoringCategory)
    returns (capped: seq<ScoringRiskGroup>, breakdown: CategoryBreakdown)
    requires DistinctIds(groups)
    ensures capped == Capped(groups, category)
    ensures breakdown == BreakdownOf(groups, category)
  {
    var raw := SumBy(groups, Raw);
    var order := Sort(groups, AllocatedBefore);
    SortIsPermutation(groups, AllocatedBefore);
    OrderKeepsIds(groups, order);
    var appliedById := Allocate(order, category);
    ReplacedIsGranted(groups, order, category, appliedById);
    var replaced := Replace(groups, appliedById);
    capped := Sort(replaced, GroupIdLe);
    var appliedTotal := SumBy(capped, Applied);
    breakdown := CategoryBreakdown(category, raw, appliedTotal, appliedTotal < raw);
  }

  lemma RecordsCover(groups: seq<ScoringRiskGroup>, order: seq<ScoringRiskGroup>, granted: seq<ScoringRiskGroup>,
                     applied: map<string, nat>)
    requires multiset(order) == multiset(groups) && |granted| == |order|
    requires Records(applied, order, granted, |order|)
    requires forall i :: 0 <= i < |order| ==> granted[i] == order[i].(appliedPenalty := granted[i].appliedPenalty)
    ensures forall g :: g in order ==> g.groupId in applied
    ensures forall g :: g in groups ==> g.groupId in applied
    ensures Replace(order, applied) == granted
  {
    forall g | g in groups ensures g in order {
      assert g in multiset(order);
    }
  }

  lemma ReplacedIsGranted(groups: seq<ScoringRiskGroup>, order: seq<ScoringRiskGroup>, category: ScoringCategory,
                          applied: map<string, nat>)
    requires DistinctIds(groups) && DistinctIds(order) && multiset(order) == multiset(groups)
    requires Records(applied, order, Grant(order, PotentialCap(category), TotalCap(category)), |order|)
    ensures forall g :: g in groups ==> g.groupId in applied
    ensures Sort(Replace(groups, applied), GroupIdLe)
      == Sort(Grant(order, PotentialCap(category), TotalCap(category)), GroupIdLe)
  {
    var granted := Grant(order, PotentialCap(category), TotalCap(category));
    GrantOnlyLowers(order, PotentialCap(category), TotalCap(category));
    hide Grant, Sort;
    RecordsCover(groups, order, granted, applied);
    ReplacePermutation(order, groups, applied);
    IdsSeparate(Replace(groups, applied));
    AllocatedBeforeIsPreorder();
    SortForgetsOrder(Replace(groups, applied), granted, GroupIdLe);
  }

  // ----- the parts of the input

  predicate IsNetwork(f: ScoringFinding) { f.category == NetworkExposure }

  predicate IsOther(f: ScoringFinding) { f.category != NetworkExposure }

  /** Splitting by category splits no group. */
  lemma MembersInPart(fs: set<ScoringFinding>, part: set<ScoringFinding>, f: ScoringFinding, text: TextServices)
    requires ValidFindings(fs, text) && f in part && f in fs && Eligible(f)
    requires forall g :: g in part <==> g in fs && Eligible(g) && IsNetwork(g) == IsNetwork(f)
    ensures Members(part, GroupKey(f, text), text) == Members(fs, GroupKey(f, text), text)
  {
    forall g | g in Members(fs, GroupKey(f, text), text) ensures g in part { MembersAgree(f, g, text); }
  }

  lemma SameMembersSameGroup(fs: set<ScoringFinding>, part: set<ScoringFinding>, key: Key, text: TextServices)
    requires Members(part, key, text) == Members(fs, key, text)
    ensures Group(part, key, text) == Group(fs, key, text)
  {
  }

  lemma NetworkKeys(fs: set<ScoringFinding>, part: set<ScoringFinding>, text: TextServices)
    requires ValidFindings(fs, text)
    requires forall g :: g in part <==> g in fs && Eligible(g) && IsNetwork(g)
    ensures KeyList(part, NetworkExposure, text) == KeyList(fs, NetworkExposure, text)
    ensures forall k :: k in Keys(fs, NetworkExposure, text) ==> Members(part, k, text) == Members(fs, k, text) != {}
  {
    hide Eligible, GroupKey;
    assert Keys(part, NetworkExposure, text) == Keys(fs, NetworkExposure, text);
    KeyListFacts(fs, NetworkExposure, text);
    forall k | k in Keys(fs, NetworkExposure, text) ensures Members(part, k, text) == Members(fs, k, text) {
      var f :| f in fs && Eligible(f) && IsNetwork(f) && GroupKey(f, text) == k;
      MembersInPart(fs, part, f, text);
    }
  }

  lemma SameFamily(fs: set<ScoringFinding>, part: set<ScoringFinding>, i: nat, text: TextServices)
    requires KeyList(part, NetworkExposure, text) == KeyList(fs, NetworkExposure, text)
    requires forall k :: k in Keys(fs, NetworkExposure, text) ==> Members(part, k, text) == Members(fs, k, text) != {}
    requires i < |KeyList(fs, NetworkExposure, text)|
    ensures |CategoryGroups(part, NetworkExposure, text)| == |CategoryGroups(fs, NetworkExposure, text)|
      == |KeyList(fs, NetworkExposure, text)|
    ensures CategoryGroups(part, NetworkExposure, text)[i] == CategoryGroups(fs, NetworkExposure, text)[i]
  {
    hide Group, KeyList, Keys, Members, CategoryGroups;
    var _ := CategoryGroupAt(fs, NetworkExposure, text, i);
    var _ := CategoryGroupAt(part, NetworkExposure, text, i);
    SameMembersSameGroup(fs, part, KeyList(fs, NetworkExposure, text)[i], text);
  }

  lemma NetworkPart(fs: set<ScoringFinding>, part: set<ScoringFinding>, text: TextServices)
    requires ValidFindings(fs, text)
    requires forall g :: g in part <==> g in fs && Eligible(g) && IsNetwork(g)
    ensures CategoryGroups(part, NetworkExposure, text) == CategoryGroups(fs, NetworkExposure, text)
  {
    NetworkKeys(fs, part, text);
    CategoryLength(fs, NetworkExposure, text);
    CategoryLength(part, NetworkExposure, text);
    hide Eligible, GroupKey, Group, KeyList, Keys, Members, CategoryGroups, ValidFindings;
    var a, b := CategoryGroups(part, NetworkExposure, text), CategoryGroups(fs, NetworkExposure, text);
    forall i | 0 <= i < |a| ensures a[i] == b[i] {
      SameFamily(fs, part, i, text);
    }
  }

  /** One group per finding, in any order. */
  ghost predicate GroupsOf(groups: seq<ScoringRiskGroup>, findings: seq<ScoringFinding>, fs: set<ScoringFinding>,
                           text: TextServices)
  {
    && |groups| == |findings|
    && forall i :: 0 <= i < |groups| ==>
         findings[i] in fs && Eligible(findings[i]) && groups[i] == GroupFor(fs, findings[i], text)
  }

  lemma AtomicCategory(fs: set<ScoringFinding>, groups: seq<ScoringRiskGroup>, findings: seq<ScoringFinding>,
                       category: ScoringCategory, text: TextServices)
    requires DigestsApart(fs, text) && ValidFindings(fs, text) && category != NetworkExposure
    requires GroupsOf(groups, findings, fs, text) && IsPart(findings, fs, false)
    ensures multiset(Filter(groups, (g: ScoringRiskGroup) => g.category == category))
      == multiset(CategoryGroups(fs, category, text))
  {
    var keep := (g: ScoringRiskGroup) => g.category == category;
    AtomicDistinct(fs, groups, findings, text);
    IdsSeparate(groups);
    ScoringLaws.CategoryIdsDiffer(fs, category, text);
    IdsSeparate(CategoryGroups(fs, category, text));
    FilterFacts(groups, keep);
    hide Eligible, GroupKey, Group, CategoryGroups, Filter, ValidFindings, GroupsOf, IsPart, DistinctIds, Separates;
    forall g ensures g in Filter(groups, keep) <==> g in CategoryGroups(fs, category, text) {
      if g in Filter(groups, keep) { AtomicToCategory(fs, groups, findings, g, text); }
      if g in CategoryGroups(fs, category, text) { CategoryToAtomic(fs, groups, findings, category, g, text); }
    }
    DistinctSameElems(Filter(groups, keep), CategoryGroups(fs, category, text));
  }

  lemma AtomicDistinct(fs: set<ScoringFinding>, groups: seq<ScoringRiskGroup>, findings: seq<ScoringFinding>,
                       text: TextServices)
    requires DigestsApart(fs, text) && ValidFindings(fs, text)
    requires GroupsOf(groups, findings, fs, text) && IsPart(findings, fs, false)
    ensures DistinctIds(groups)
  {
    hide Eligible, GroupKey, Group, StableGroupId, ValidFindings;
    forall i, j | 0 <= i < j < |groups| ensures groups[i].groupId != groups[j].groupId {
      assert findings[i] in findings;
      AtomicIdsDiffer(fs, findings[i], findings[j], text);
    }
  }

  lemma AtomicToCategory(fs: set<ScoringFinding>, groups: seq<ScoringRiskGroup>, findings: seq<ScoringFinding>,
                         g: ScoringRiskGroup, text: TextServices)
    requires ValidFindings(fs, text) && GroupsOf(groups, findings, fs, text) && IsPart(findings, fs, false)
    requires g in groups
    ensures g in CategoryGroups(fs, g.category, text)
  {
    hide Eligible, GroupKey, Group, CategoryGroups;
    var i :| 0 <= i < |groups| && groups[i] == g;
    assert findings[i] in findings;
    AtomicGroupFacts(fs, findings[i], text);
    ScoringLaws.FindingHasGroup(fs, findings[i], text);
  }

  lemma CategoryToAtomic(fs: set<ScoringFinding>, groups: seq<ScoringRiskGroup>, findings: seq<ScoringFinding>,
                         category: ScoringCategory, g: ScoringRiskGroup, text: TextServices)
    requires ValidFindings(fs, text) && category != NetworkExposure
    requires GroupsOf(groups, findings, fs, text) && IsPart(findings, fs, false)
    requires g in CategoryGroups(fs, category, text)
    ensures g in groups && g.category == category
  {
    hide GroupKey, Group, CategoryGroups;
    var f := ScoringLaws.GroupHasFinding(fs, category, g, text);
    hide Eligible, ValidFindings;
    AtomicGroupFacts(fs, f, text);
    assert f in findings;
    var i :| 0 <= i < |findings| && findings[i] == f;
    assert groups[i] in groups;
  }

  lemma AtomicIdsDiffer(fs: set<ScoringFinding>, f: ScoringFinding, g: ScoringFinding, text: TextServices)
    requires DigestsApart(fs, text) && ValidFindings(fs, text)
    requires f in fs && g in fs && Eligible(f) && Eligible(g) && IsOther(f) && f != g
    ensures GroupFor(fs, f, text).groupId != GroupFor(fs, g, text).groupId
  {
    hide Group, Eligible, GroupKey, StableGroupId;
    assert f in Members(fs, GroupKey(f, text), text) && g in Members(fs, GroupKey(g, text), text);
    GroupIdentity(fs, GroupKey(f, text), text);
    GroupIdentity(fs, GroupKey(g, text), text);
    if StableGroupId(GroupKey(f, text), text) == StableGroupId(GroupKey(g, text), text) {
      GroupIdsDiffer(fs, f, g, text);
      MembersAgree(f, g, text);
    }
  }

  /** The groups of the whole run, category by category, up to order. */
  ghost predicate GroupsByCategory(groups: seq<ScoringRiskGroup>, fs: set<ScoringFinding>, text: TextServices) {
    forall c: ScoringCategory ::
      multiset(Filter(groups, (g: ScoringRiskGroup) => g.category == c)) == multiset(CategoryGroups(fs, c, text))
  }

  /** The findings of one part, each eligible and once. */
  ghost predicate IsPart(part: seq<ScoringFinding>, fs: set<ScoringFinding>, network: bool) {
    && Distinct(part)
    && forall f :: f in part <==> f in fs && Eligible(f) && IsNetwork(f) == network
  }

  lemma PartIsScoreable(part: seq<ScoringFinding>, fs: set<ScoringFinding>, network: bool, text: TextServices)
    requires ValidFindings(fs, text) && IsPart(part, fs, network)
    ensures Scoreable(part, text) && forall f :: f in part ==> f in fs && IsNetwork(f) == network
  {
    hide Eligible;
    assert Elems(part) <= fs;
  }

  method Split(findings: seq<ScoringFinding>) returns (network: seq<ScoringFinding>, other: seq<ScoringFinding>)
    requires Distinct(findings)
    ensures IsPart(network, Elems(findings), true) && IsPart(other, Elems(findings), false)
  {
    var eligible := Filter(findings, Eligible);
    network := Filter(eligible, IsNetwork);
    other := Filter(eligible, IsOther);
    FilterFacts(findings, Eligible);
    FilterFacts(eligible, IsNetwork);
    FilterFacts(eligible, IsOther);
    hide Filter, Eligible;
  }

  method AllGroups(findings: seq<ScoringFinding>, text: TextServices) returns (groups: seq<ScoringRiskGroup>)
    requires DigestsApart(Elems(findings), text) && ValidFindings(Elems(findings), text) && Distinct(findings)
    ensures GroupsByCategory(groups, Elems(findings), text)
  {
    ghost var fs := Elems(findings);
    var network, other := Split(findings);
    PartIsScoreable(network, fs, true, text);
    PartIsScoreable(other, fs, false, text);
    var networkGroups := NetworkGroups(network, text);
    var atomicGroups := AtomicGroups(other, text);
    groups := networkGroups + atomicGroups;
    hide Scoreable, ValidFindings, Distinct, Filter, Sort, Eligible, CategoryGroups;
    NetworkPart(fs, Elems(network), text);
    AtomicPart(fs, other, atomicGroups, text);
    GroupsAreByCategory(fs, networkGroups, atomicGroups, Sort(other, FindingIdLe), text);
  }

  lemma AtomicPart(fs: set<ScoringFinding>, other: seq<ScoringFinding>, groups: seq<ScoringRiskGroup>,
                   text: TextServices)
    requires ValidFindings(fs, text) && IsPart(other, fs, false)
    requires |groups| == |Sort(other, FindingIdLe)|
    requires forall i :: 0 <= i < |groups| ==>
      Sort(other, FindingIdLe)[i] in other
      && Eligible(Sort(other, FindingIdLe)[i])
      && groups[i] == GroupFor(Elems(other), Sort(other, FindingIdLe)[i], text)
    ensures IsPart(Sort(other, FindingIdLe), fs, false)
    ensures GroupsOf(groups, Sort(other, FindingIdLe), fs, text)
  {
    var order := Sort(other, FindingIdLe);
    SortIsPermutation(other, FindingIdLe);
    SortKeepsDistinct(other, FindingIdLe);
    hide Eligible, GroupKey, Group, Sort, ValidFindings;
    forall i | 0 <= i < |groups| ensures groups[i] == GroupFor(fs, order[i], text) {
      MembersInPart(fs, Elems(other), order[i], text);
      assert order[i] in Members(fs, GroupKey(order[i], text), text);
      SameMembersSameGroup(fs, Elems(other), GroupKey(order[i], text), text);
    }
  }

  lemma GroupsAreByCategory(fs: set<ScoringFinding>, networkGroups: seq<ScoringRiskGroup>,
                            atomicGroups: seq<ScoringRiskGroup>, findings: seq<ScoringFinding>, text: TextServices)
    requires DigestsApart(fs, text) && ValidFindings(fs, text)
    requires networkGroups == CategoryGroups(fs, NetworkExposure, text)
    requires GroupsOf(atomicGroups, findings, fs, text) && IsPart(findings, fs, false)
    ensures GroupsByCategory(networkGroups + atomicGroups, fs, text)
  {
    hide Eligible, CategoryGroups, ValidFindings, GroupsOf, IsPart, Filter;
    forall c: ScoringCategory
      ensures multiset(Filter(networkGroups + atomicGroups, (g: ScoringRiskGroup) => g.category == c))
        == multiset(CategoryGroups(fs, c, text))
    {
      var keep := (g: ScoringRiskGroup) => g.category == c;
      FilterConcat(networkGroups, atomicGroups, keep);
      NetworkCategory(fs, networkGroups, text);
      FilterAll(networkGroups, keep);
      if c == NetworkExposure {
        AtomicIsNotNetwork(fs, atomicGroups, findings, text);
        FilterAll(atomicGroups, keep);
      } else {
        AtomicCategory(fs, atomicGroups, findings, c, text);
      }
    }
  }

  lemma NetworkCategory(fs: set<ScoringFinding>, groups: seq<ScoringRiskGroup>, text: TextServices)
    requires ValidFindings(fs, text) && groups == CategoryGroups(fs, NetworkExposure, text)
    ensures forall g :: g in groups ==> g.category == NetworkExposure
  {
    hide Eligible, GroupKey, Group, CategoryGroups;
    forall g | g in groups ensures g.category == NetworkExposure {
      var f := ScoringLaws.GroupHasFinding(fs, NetworkExposure, g, text);
      GroupFacts(fs, GroupKey(f, text), f, text);
    }
  }

  lemma AtomicIsNotNetwork(fs: set<ScoringFinding>, groups: seq<ScoringRiskGroup>, findings: seq<ScoringFinding>,
                           text: TextServices)
    requires ValidFindings(fs, text) && GroupsOf(groups, findings, fs, text) && IsPart(findings, fs, false)
    ensures forall g :: g in groups ==> g.category != NetworkExposure
  {
    hide Eligible, GroupKey, Group;
    forall g | g in groups ensures g.category != NetworkExposure {
      var i :| 0 <= i < |groups| && groups[i] == g;
      assert findings[i] in findings;
      AtomicGroupFacts(fs, findings[i], text);
    }
  }

  // ----- score

  function Max(a: int, b: int): int {
    if a <= b then b else a
  }

  ghost function PartContributors(fs: set<ScoringFinding>, text: TextServices, n: nat): seq<ScoringRiskGroup> {
    if n == 0 then []
    else if n == 1 then Capped(CategoryGroups(fs, NetworkExposure, text), NetworkExposure)
    else if n == 2 then
      Capped(CategoryGroups(fs, NetworkExposure, text), NetworkExposure)
      + Capped(CategoryGroups(fs, FirewallPosture, text), FirewallPosture)
    else Contributors(fs, text)
  }

  lemma PartGrows(fs: set<ScoringFinding>, text: TextServices, n: nat)
    requires n < 3
    ensures PartContributors(fs, text, n + 1)
      == PartContributors(fs, text, n) + Capped(CategoryGroups(fs, CATEGORIES[n], text), CATEGORIES[n])
  {
    hide Capped, CategoryGroups;
  }

  method CapCategories(groups: seq<ScoringRiskGroup>, text: TextServices, ghost fs: set<ScoringFinding>)
    returns (contributors: seq<ScoringRiskGroup>, categories: seq<CategoryBreakdown>)
    requires DigestsApart(fs, text) && ValidFindings(fs, text) && GroupsByCategory(groups, fs, text)
    ensures contributors == Contributors(fs, text)
    ensures |categories| == 3
    ensures forall i ::
      0 <= i < 3 ==> categories[i] == BreakdownOf(CategoryGroups(fs, CATEGORIES[i], text), CATEGORIES[i])
  {
    hide Capped, CategoryGroups, BreakdownOf, ValidFindings, Filter;
    contributors, categories := [], [];
    for i := 0 to |CATEGORIES|
      invariant contributors == PartContributors(fs, text, i)
      invariant |categories| == i
      invariant forall j :: 0 <= j < i ==>
        categories[j] == BreakdownOf(CategoryGroups(fs, CATEGORIES[j], text), CATEGORIES[j])
    {
      var category := CATEGORIES[i];
      PartGrows(fs, text, i);
      var categoryGroups := Filter(groups, (g: ScoringRiskGroup) => g.category == category);
      OrderIsForgotten(categoryGroups, fs, category, text);
      var capped, breakdown := CapGroups(categoryGroups, category);
      contributors := contributors + capped;
      categories := categories + [breakdown];
    }
  }

  lemma OrderIsForgotten(groups: seq<ScoringRiskGroup>, fs: set<ScoringFinding>, c: ScoringCategory, text: TextServices)
    requires DigestsApart(fs, text) && ValidFindings(fs, text)
    requires multiset(groups) == multiset(CategoryGroups(fs, c, text))
    ensures DistinctIds(groups)
    ensures Capped(groups, c) == Capped(CategoryGroups(fs, c, text), c)
    ensures BreakdownOf(groups, c) == BreakdownOf(CategoryGroups(fs, c, text), c)
  {
    hide Capped, CategoryGroups;
    ScoringLaws.CategoryIdsDiffer(fs, c, text);
    OrderKeepsIds(CategoryGroups(fs, c, text), groups);
    CappedForgetsOrder(CategoryGroups(fs, c, text), groups, c);
    SumByPermutation(groups, CategoryGroups(fs, c, text), Raw);
  }

  lemma CountStep(findings: seq<ScoringFinding>, i: nat, s: Severity)
    requires Distinct(findings) && i < |findings|
    ensures CountOf(Elems(findings[..i + 1]), s).1
      == CountOf(Elems(findings[..i]), s).1 + if findings[i].severity == s then 1 else 0
  {
    var f := findings[i];
    assert Elems(findings[..i + 1]) == Elems(findings[..i]) + {f};
    assert f !in Elems(findings[..i]);
    hide Elems, Distinct;
    OneMoreSeverity(Elems(findings[..i]), f, s);
  }

  lemma OneMoreSeverity(fs: set<ScoringFinding>, f: ScoringFinding, s: Severity)
    requires f !in fs
    ensures CountOf(fs + {f}, s).1 == CountOf(fs, s).1 + if f.severity == s then 1 else 0
  {
    if f.severity == s {
      assert WithSeverity(fs + {f}, s) == WithSeverity(fs, s) + {f};
    } else {
      assert WithSeverity(fs + {f}, s) == WithSeverity(fs, s);
    }
  }

  method CountSeverity(findings: seq<ScoringFinding>, s: Severity) returns (n: nat)
    requires Distinct(findings)
    ensures (s, n) == CountOf(Elems(findings), s)
  {
    n := 0;
    for i := 0 to |findings|
      invariant n == CountOf(Elems(findings[..i]), s).1
    {
      CountStep(findings, i, s);
      if findings[i].severity == s {
        n := n + 1;
      }
    }
    assert findings[..|findings|] == findings;
  }

  ghost function IdsInOrder(findings: seq<ScoringFinding>): seq<string> {
    seq(|findings|, i requires 0 <= i < |findings| => findings[i].findingId)
  }

  /** What a list of findings scores: its set decides, unless an id repeats. */
  ghost function ScoreResult(findings: seq<ScoringFinding>, text: TextServices): Result<ScoringResult, ScoringError> {
    if Distinct(IdsInOrder(findings)) then Ok(ScoreOf(Elems(findings), text)) else Err(DuplicateFindingIds)
  }

  /**
   * Any list of valid findings, in any order: the result is the one fixed by the set of
   * findings, and a repeated finding id is refused.
   */
  method CalculateSecurityScoreV2(findings: seq<ScoringFinding>, text: TextServices)
    returns (r: Result<ScoringResult, ScoringError>)
    requires DigestsApart(Elems(findings), text) && forall f :: f in findings ==> f.Valid(text)
    ensures r == ScoreResult(findings, text)
    ensures r.Ok? <==> forall i, j :: 0 <= i < j < |findings| ==> findings[i].findingId != findings[j].findingId
    ensures r.Ok? ==> r.value.score == ScoringReference.ReferenceScore(Elems(findings), text)
    ensures r.Ok? ==> ScoringReference.CitesByRisk(r.value, Elems(findings), text)
  {
    var ids := seq(|findings|, i requires 0 <= i < |findings| => findings[i].findingId);
    assert ids == IdsInOrder(findings);
    var idSet := set id | id in ids;
    assert idSet == Elems(ids);
    DistinctIffCounted(ids);
    DistinctIdsMean(findings);
    hide ScoreOf, ValidFindings, DigestsApart, Distinct, IdsInOrder;
    if |idSet| != |ids| {
      return Err(DuplicateFindingIds);
    }
    DistinctIdsGiveValidSet(findings, text);
    ScoringReference.ScoreIsReference(Elems(findings), text);
    ScoringReference.ScoreCitesByRisk(Elems(findings), text);
    var result := ScoreDistinct(findings, text);
    r := Ok(result);
  }

  lemma DistinctIdsMean(findings: seq<ScoringFinding>)
    ensures Distinct(IdsInOrder(findings))
      <==> forall i, j :: 0 <= i < j < |findings| ==> findings[i].findingId != findings[j].findingId
  {
    if Distinct(IdsInOrder(findings)) {
      forall i, j | 0 <= i < j < |findings| ensures findings[i].findingId != findings[j].findingId {
        assert IdsInOrder(findings)[i] != IdsInOrder(findings)[j];
      }
    }
  }

  lemma DistinctIdsGiveValidSet(findings: seq<ScoringFinding>, text: TextServices)
    requires Distinct(IdsInOrder(findings)) && forall f :: f in findings ==> f.Valid(text)
    ensures ValidFindings(Elems(findings), text) && Distinct(findings)
  {
    var ids := IdsInOrder(findings);
    forall f, g | f in findings && g in findings && f.findingId == g.findingId ensures f == g {
      var i, j :| 0 <= i < |findings| && 0 <= j < |findings| && findings[i] == f && findings[j] == g;
      assert ids[i] == ids[j];
    }
    forall i, j | 0 <= i < j < |findings| ensures findings[i] != findings[j] {
      assert ids[i] != ids[j];
    }
  }

  method ScoreDistinct(findings: seq<ScoringFinding>, text: TextServices) returns (result: ScoringResult)
    requires DigestsApart(Elems(findings), text) && ValidFindings(Elems(findings), text) && Distinct(findings)
    ensures result == ScoreOf(Elems(findings), text)
  {
    hide Contributors, CategoryGroups, BreakdownOf, ValidFindings, HighestConfirmed, Sort, Distinct, GroupsByCategory,
      CountOf;
    var groups := AllGroups(findings, text);
    var contributors, categories := CapCategories(groups, text, Elems(findings));
    assert CATEGORIES == [NetworkExposure, FirewallPosture, OtherDeterministicRisk];
    var categoryPenalty := categories[0].appliedPenalty + categories[1].appliedPenalty + categories[2].appliedPenalty;
    var score := Max(0, Min(100, 100 - categoryPenalty));
    var highest := HighestConfirmed(contributors);
    if highest.Some? && ConfirmedCeiling(highest.value).Some? {
      score := Min(score, ConfirmedCeiling(highest.value).value);
    }
    if SumBy(contributors, ConfirmedCritical) >= 2 {
      score := Min(score, 20);
    }
    var totalPenalty := 100 - score;
    var counts := [];
    for i := 0 to |COUNT_ORDER|
      invariant |counts| == i
      invariant forall j :: 0 <= j < i ==> counts[j] == CountOf(Elems(findings), COUNT_ORDER[j])
    {
      var n := CountSeverity(findings, COUNT_ORDER[i]);
      counts := counts + [(COUNT_ORDER[i], n)];
    }
    assert COUNT_ORDER == [Critical, High, Medium, Low, Info];
    result := ScoringResult(score, RiskLevel(score), counts, totalPenalty, categories,
                            Sort(contributors, GroupIdLe), highest);
  }

  /** Order independence: permuted lists have the same score, groups and explanation, or are both refused. */
  lemma ScoreForgetsOrder(a: seq<ScoringFinding>, b: seq<ScoringFinding>, text: TextServices)
    requires multiset(a) == multiset(b)
    ensures ScoreResult(a, text) == ScoreResult(b, text)
  {
    forall f ensures f in a <==> f in b {
      assert f in a <==> f in multiset(a);
      assert f in b <==> f in multiset(b);
    }
    assert Elems(a) == Elems(b);
    hide ScoreOf;
    if Distinct(IdsInOrder(a)) { DistinctIdsForgetOrder(a, b); }
    if Distinct(IdsInOrder(b)) { DistinctIdsForgetOrder(b, a); }
  }

  lemma DistinctIdsForgetOrder(a: seq<ScoringFinding>, b: seq<ScoringFinding>)
    requires multiset(a) == multiset(b) && Distinct(IdsInOrder(a))
    ensures Distinct(IdsInOrder(b))
  {
    forall i, j | 0 <= i < j < |a| ensures a[i] != a[j] {
      assert IdsInOrder(a)[i] != IdsInOrder(a)[j];
    }
    PermutationKeepsDistinct(a, b);
    forall i, j | 0 <= i < j < |b| ensures b[i].findingId != b[j].findingId {
      assert b[i] in multiset(b) && b[j] in multiset(b);
      var x :| 0 <= x < |a| && a[x] == b[i];
      var y :| 0 <= y < |a| && a[y] == b[j];
      assert IdsInOrder(a)[x] == b[i].findingId && IdsInOrder(a)[y] == b[j].findingId;
    }
  }
}
