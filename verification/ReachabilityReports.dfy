/** Assessments and their reports in terms of the entries they show: evidence, states, written fields, acceptance. */
module ReachabilityReports {
  import opened Common
  import opened Orders
  import opened Vocabulary
  import opened FirewallContracts
  import opened FirewallPolicy
  import opened Reachability

  // ----- state and evidence of an assessment

  /** The policy is known to block the listener. */
  ghost predicate Blocks(policy: Option<Assessment>) {
    exists a :: policy == Some(a)
      && (a.disposition == BlockEstablished || (a.applicability == MatchingBlock && a.coverage == CoverageComplete))
  }

  /** What an assessment cites beside the evidence it is given. */
  ghost predicate Cites(e: BindExposure, policy: Option<Assessment>, b: ReachabilityBasis) {
    var bound := e != Loopback && policy.Some?;
    match b
    case SocketLoopbackBind => e == Loopback
    case SocketInterfaceBind => e == Interface
    case SocketWildcardBind => e == AllInterfaces
    case HostPolicyExplicitBlock => bound && Blocks(policy) && policy.value.applicability == MatchingBlock
    case HostPolicyEvaluatedBlock => bound && Blocks(policy) && policy.value.applicability != MatchingBlock
    case HostPolicyExplicitAllow => bound && !Blocks(policy) && policy.value.applicability == MatchingAllow
    case HostPolicyDefaultContext => bound && !Blocks(policy) && policy.value.applicability == NothingMatches
    case HostPolicyIncomplete =>
      bound && !Blocks(policy) && policy.value.applicability !in {MatchingAllow, NothingMatches}
    case _ => false
  }

  lemma BlocksMeans(policy: Option<Assessment>)
    ensures Blocks(policy)
      <==> (policy.Some?
            && (policy.value.disposition == BlockEstablished
                || (policy.value.applicability == MatchingBlock && policy.value.coverage == CoverageComplete)))
  {
  }

  /** A loopback bind is unreachable, a blocked one blocked, any other potentially reachable. */
  lemma StateIs(e: BindExposure, given: seq<ReachabilityBasis>, policy: Option<Assessment>)
    ensures var r := AssessReachability(e, given, policy);
      && r.exposure == e && r.policy == policy
      && (r.state == NotRemotelyBound <==> e == Loopback)
      && (r.state == BlockedByObservedPolicy <==> e != Loopback && Blocks(policy))
      && (r.state == PotentiallyReachable <==> e != Loopback && !Blocks(policy))
  {
    BlocksMeans(policy);
    hide Blocks, Unrepeated;
  }

  /** What is cited: the given evidence, the bind, and what the policy shows. */
  lemma EvidenceIs(e: BindExposure, given: seq<ReachabilityBasis>, policy: Option<Assessment>, b: ReachabilityBasis)
    ensures b in AssessReachability(e, given, policy).basis <==> b in given || Cites(e, policy, b)
  {
    BlocksMeans(policy);
    MembersAre(e, given, b);
    hide Blocks, Unrepeated;
  }

  lemma MembersAre(e: BindExposure, given: seq<ReachabilityBasis>, b: ReachabilityBasis)
    ensures b in Unrepeated([BindBasis(e)] + given) <==> b == BindBasis(e) || b in given
    ensures forall x ::
      b in Unrepeated(Unrepeated([BindBasis(e)] + given) + [x]) <==> b == BindBasis(e) || b in given || b == x
  {
    UnrepeatedMeans([BindBasis(e)] + given);
    var basis := Unrepeated([BindBasis(e)] + given);
    forall x { UnrepeatedMeans(basis + [x]); }
    hide Unrepeated;
  }

  /** a first stands before b in s. */
  ghost predicate Precedes<T>(s: seq<T>, a: T, b: T) {
    exists i :: 0 <= i < |s| && s[i] == a && b !in s[..i + 1]
  }

  lemma PrecedesGrows<T>(s: seq<T>, x: T, a: T, b: T)
    requires Precedes(s, a, b)
    ensures Precedes(s + [x], a, b)
  {
    var i :| 0 <= i < |s| && s[i] == a && b !in s[..i + 1];
    assert (s + [x])[..i + 1] == s[..i + 1];
  }

  /** The members of u stand in the order in which s first has them. */
  ghost predicate InOrderOf<T>(s: seq<T>, u: seq<T>) {
    forall i, j :: 0 <= i < j < |u| ==> Precedes(s, u[i], u[j])
  }

  lemma {:induction false} UnrepeatedKeepsOrder(s: seq<ReachabilityBasis>)
    ensures InOrderOf(s, Unrepeated(s))
  {
    if s != [] {
      var init, last := s[..|s| - 1], s[|s| - 1];
      assert s == init + [last];
      UnrepeatedKeepsOrder(init);
      UnrepeatedMeans(init);
      var before, u := Unrepeated(init), Unrepeated(s);
      assert u == if last in before then before else before + [last];
      hide Unrepeated;
      forall i, j | 0 <= i < j < |u| ensures Precedes(s, u[i], u[j]) {
        if j < |before| {
          assert u[i] == before[i] && u[j] == before[j];
          PrecedesGrows(init, last, u[i], u[j]);
        } else {
          assert u[i] == before[i] && u[j] == last && before[i] in before;
          var k :| 0 <= k < |init| && init[k] == before[i];
          assert s[..k + 1] == init[..k + 1];
        }
      }
    }
  }

  lemma GivenInOrder(e: BindExposure, given: seq<ReachabilityBasis>)
    ensures var basis := AssessReachability(e, given, None).basis;
      basis != [] && basis[0] == BindBasis(e) && InOrderOf([BindBasis(e)] + given, basis)
  {
    var s := [BindBasis(e)] + given;
    UnrepeatedKeepsOrder(s);
    FirstStays(s);
    hide Unrepeated, InOrderOf;
  }

  lemma EvidenceIsDistinct(e: BindExposure, given: seq<ReachabilityBasis>, policy: Option<Assessment>)
    ensures Distinct(AssessReachability(e, given, policy).basis)
  {
    forall s { UnrepeatedMeans(s); }
    hide Unrepeated, Distinct;
  }

  /**
   * The bind is cited first, given evidence follows in its order, and the policy adds at most one
   * entry, at the end; nothing is cited twice.
   */
  lemma EvidenceInOrder(e: BindExposure, given: seq<ReachabilityBasis>, policy: Option<Assessment>)
    ensures var without, basis := AssessReachability(e, given, None).basis, AssessReachability(e, given, policy).basis;
      && without != [] && (without[0] == SocketLoopbackBind <==> e == Loopback)
      && (without[0] == SocketInterfaceBind <==> e == Interface)
      && (without[0] == SocketWildcardBind <==> e == AllInterfaces)
      && InOrderOf([without[0]] + given, without)
      && without <= basis && |basis| <= |without| + 1 && Distinct(basis)
  {
    GivenInOrder(e, given);
    PolicyIsCitedLast(e, given, policy);
    EvidenceIsDistinct(e, given, policy);
    hide AssessReachability, InOrderOf, Distinct;
  }

  /** The policy adds at most one entry, at the end. */
  lemma PolicyIsCitedLast(e: BindExposure, given: seq<ReachabilityBasis>, policy: Option<Assessment>)
    ensures var without, r := AssessReachability(e, given, None).basis, AssessReachability(e, given, policy).basis;
      without <= r && |r| <= |without| + 1
  {
    var basis := Unrepeated([BindBasis(e)] + given);
    UnrepeatedMeans([BindBasis(e)] + given);
    BlocksMeans(policy);
    hide Unrepeated, Blocks;
    forall x ensures basis <= Unrepeated(basis + [x]) && |Unrepeated(basis + [x])| <= |basis| + 1 { OneMore(basis, x); }
    var r := AssessReachability(e, given, policy).basis;
    assert r == basis || exists x :: r == Unrepeated(basis + [x]);
    hide AssessReachability, BindBasis;
  }

  lemma OneMore(basis: seq<ReachabilityBasis>, x: ReachabilityBasis)
    requires Distinct(basis)
    ensures Unrepeated(basis + [x]) == if x in basis then basis else basis + [x]
  {
    DistinctStays(basis);
    assert (basis + [x])[..|basis|] == basis;
  }

  lemma {:induction false} DistinctStays(s: seq<ReachabilityBasis>)
    requires Distinct(s)
    ensures Unrepeated(s) == s
  {
    if s != [] {
      assert s == s[..|s| - 1] + [s[|s| - 1]];
      DistinctStays(s[..|s| - 1]);
    }
  }

  lemma {:induction false} FirstStays(s: seq<ReachabilityBasis>)
    requires s != []
    ensures Unrepeated(s) != [] && Unrepeated(s)[0] == s[0]
  {
    if |s| > 1 {
      FirstStays(s[..|s| - 1]);
    } else {
      assert s[..0] == [];
    }
  }

  /** Coverage of reachability is unknown without sockets or listeners, and complete when every listener is settled. */
  lemma CoverageIs(socket: CoverageState, reached: seq<Reach>)
    ensures ReachabilityCoverage(socket, reached) == CoverageUnknown <==> socket == CoverageUnknown && reached == []
    ensures ReachabilityCoverage(socket, reached) == CoverageComplete <==>
      && socket == CoverageComplete
      && forall r :: r in reached ==> r.state in {NotRemotelyBound, BlockedByObservedPolicy, ConfirmedReachable}
  {
    if reached != [] { assert reached[0] in reached; }
  }

  // ----- what a report shows

  ghost predicate ShowsEach<T(!new)>(shown: seq<Token<T>>, values: seq<T>) {
    |shown| == |values| && forall i :: 0 <= i < |values| ==> shown[i] == Known(values[i])
  }

  /** The ids of the matches that are no misses, ascending. */
  ghost predicate ShowsMatches(shown: seq<string>, ms: seq<RuleMatch>) {
    && (forall d :: d in shown <==> exists m :: m in ms && m.id == d && m.condition != NoMatch)
    && forall i, j :: 0 <= i < j < |shown| ==> shown[i] != shown[j] && StrLe(shown[i], shown[j])
  }

  /** The report form of a policy assessment, field by field. */
  lemma PolicyIsShown(a: Assessment)
    requires ValidAssessment(a)
    ensures var m := WritePolicy(a);
      && m.applicability == Known(a.applicability) && m.defaultPolicy == Known(a.defaultPolicy)
      && m.collection == Known(a.collection) && m.coverage == Known(a.coverage)
      && m.disposition == Some(Known(a.disposition))
      && ShowsEach(m.basis, a.basis) && ShowsMatches(m.digests, a.matches)
  {
    AscendingMeans(a.matches);
    DigestsShow(a.matches);
    hide Digests, ShowsMatches;
  }

  lemma {:induction false} DigestsShow(ms: seq<RuleMatch>)
    requires Ascending(ms)
    ensures ShowsMatches(Digests(ms), ms)
  {
    if ms != [] {
      TailAscends(ms);
      hide StrLe, Ascending, ShowsMatches;
      DigestsShow(ms[1..]);
      OneMoreShown(ms[0], ms[1..], Digests(ms[1..]));
      assert ms == [ms[0]] + ms[1..];
    }
  }

  lemma TailAscends(ms: seq<RuleMatch>)
    requires ms != [] && Ascending(ms)
    ensures Ascending(ms[1..])
    ensures forall m :: m in ms[1..] ==> ms[0].id != m.id && StrLe(ms[0].id, m.id)
  {
    hide StrLe;
    forall m | m in ms[1..] ensures ms[0].id != m.id && StrLe(ms[0].id, m.id) {
      var i :| 0 <= i < |ms[1..]| && ms[1..][i] == m;
      assert ms[i + 1] == m;
    }
  }

  lemma OneMoreShown(first: RuleMatch, ms: seq<RuleMatch>, shown: seq<string>)
    requires ShowsMatches(shown, ms)
    requires forall m :: m in ms ==> first.id != m.id && StrLe(first.id, m.id)
    ensures ShowsMatches((if first.condition != NoMatch then [first.id] else []) + shown, [first] + ms)
  {
    hide StrLe;
    var more, all := [first] + ms, (if first.condition != NoMatch then [first.id] else []) + shown;
    forall d ensures d in all <==> exists m :: m in more && m.id == d && m.condition != NoMatch {
      if d in shown {
        var m :| m in ms && m.id == d && m.condition != NoMatch;
        assert m in more;
      } else if d in all {
        assert first in more;
      }
    }
    forall d | d in shown ensures first.id != d && StrLe(first.id, d) {
      var m :| m in ms && m.id == d && m.condition != NoMatch;
    }
    if first.condition != NoMatch {
      forall i, j | 0 <= i < j < |all| ensures all[i] != all[j] && StrLe(all[i], all[j]) {
        assert all[j] == shown[j - 1] && shown[j - 1] in shown && (i > 0 ==> all[i] == shown[i - 1]);
      }
    } else {
      assert all == shown;
    }
  }

  /** The report form of an assessment: the bind is a fact, the state derived. */
  lemma ReachIsShown(r: Reach)
    requires ValidReach(r)
    ensures var m := WriteReach(r);
      && m.exposure == Known(r.exposure) && m.bindRole == "OBSERVED_FACT"
      && m.state == Known(r.state) && m.stateRole == "DETERMINISTIC_DERIVATION"
      && ShowsEach(m.basis, r.basis)
      && (m.policy.Some? <==> r.policy.Some?)
      && (r.policy.Some? ==> m.policy == Some(WritePolicy(r.policy.value)))
  {
  }

  // ----- what a reader accepts

  /** A policy mapping's disposition under a schema. */
  ghost predicate Disposes(m: PolicyMapping, schema: PolicySchema, d: Disposition) {
    || (schema == Schema16 && m.disposition == None && d == NotEstablished)
    || (schema == Schema17 && m.disposition == Some(Known(d)))
  }

  /** The canonical forms of the listed digests. */
  ghost predicate Canonical(listed: seq<string>, ids: seq<string>, digestOf: string -> Option<string>) {
    |ids| == |listed| && forall i :: 0 <= i < |ids| ==> digestOf(listed[i]) == Some(ids[i])
  }

  /** What an accepted mapping must say, and what the reader makes of it. */
  ghost predicate ReadsAs(m: PolicyMapping, schema: PolicySchema, digestOf: string -> Option<string>, a: Assessment) {
    && m.applicability == Known(a.applicability) && m.defaultPolicy == Known(a.defaultPolicy)
    && m.collection == Known(a.collection) && m.coverage == Known(a.coverage)
    && Disposes(m, schema, a.disposition)
    && ShowsEach(m.basis, a.basis) && a.basis != [] && Distinct(a.basis)
    && (exists ids :: Canonical(m.digests, ids, digestOf) && Distinct(ids) && |ids| <= 16 && IsReadFrom(a, ids))
    && (a.coverage == CoverageComplete <==> a.applicability in {MatchingAllow, MatchingBlock, NothingMatches})
    && (a.applicability in {MatchingAllow, MatchingBlock} ==> a.matches != [])
    && (a.applicability == NothingMatches ==> a.matches == [])
    && (a.disposition != NotEstablished ==> a.coverage == CoverageComplete && a.collection == CoverageComplete)
    && !(a.applicability == MatchingBlock && a.disposition == AllowEstablished)
  }

  /** One definite match per id, ascending; they block if the mapping says a block matched, and allow otherwise. */
  ghost predicate IsReadFrom(a: Assessment, ids: seq<string>) {
    && Elems(a.matches)
       == (set id | id in ids :: if a.applicability == MatchingBlock then RuleMatch(id, Block, Match, true)
                                 else RuleMatch(id, Allow, Match, false))
    && forall i, j :: 0 <= i < j < |a.matches| ==>
         a.matches[i].id != a.matches[j].id && StrLe(a.matches[i].id, a.matches[j].id)
  }

  /** A mapping is accepted exactly if it reads as some assessment, and then as that one. */
  lemma PolicyAcceptedExactlyWhen(m: PolicyMapping, schema: PolicySchema, digestOf: string -> Option<string>,
                                  a: Assessment)
    ensures ReadPolicy(m, schema, digestOf) == Some(a) <==> ReadsAs(m, schema, digestOf, a)
  {
    if ReadPolicy(m, schema, digestOf) == Some(a) { AcceptedReadsAs(m, schema, digestOf, a); }
    if ReadsAs(m, schema, digestOf, a) { ReadsAsAccepted(m, schema, digestOf, a); }
  }

  lemma {:induction false} DigestsAreRead(listed: seq<string>, a: Applicability, digestOf: string -> Option<string>)
    ensures ReadMatches(listed, a, digestOf).Some? <==> forall i :: 0 <= i < |listed| ==> digestOf(listed[i]).Some?
    ensures ReadMatches(listed, a, digestOf).Some? ==>
      var ms := ReadMatches(listed, a, digestOf).value;
      |ms| == |listed| && forall i :: 0 <= i < |ms| ==>
        digestOf(listed[i]).Some? && ms[i] == ReadMatch(digestOf(listed[i]).value, a)
  {
    if listed != [] {
      DigestsAreRead(listed[1..], a, digestOf);
    }
  }

  lemma ReadValues<T(!new)>(shown: seq<Token<T>>, values: seq<T>)
    ensures AllKnown(shown) && Values(shown) == values <==> ShowsEach(shown, values)
  {
  }

  lemma DispositionIs(m: PolicyMapping, schema: PolicySchema, d: Disposition)
    ensures ReadDisposition(m, schema) == Some(d) <==> Disposes(m, schema, d)
  {
  }

  ghost predicate ReadInTurn(ms: seq<RuleMatch>, ids: seq<string>, a: Applicability) {
    |ms| == |ids| && forall i :: 0 <= i < |ms| ==> ms[i] == ReadMatch(ids[i], a)
  }

  lemma RepeatsAre(ms: seq<RuleMatch>, ids: seq<string>, a: Applicability)
    requires ReadInTurn(ms, ids, a)
    ensures Distinct(ids) <==> Distinct(ms)
    ensures Distinct(ids) <==> MatchIdsDistinct(ms)
  {
  }

  lemma SortedRead(ms: seq<RuleMatch>, ids: seq<string>, a: Applicability)
    requires ReadInTurn(ms, ids, a)
    ensures Elems(Sort(ms, MatchLe)) == Elems(ms)
    ensures MatchIdsDistinct(Sort(ms, MatchLe)) <==> Distinct(ids)
  {
    RepeatsAre(ms, ids, a);
    var sorted := Sort(ms, MatchLe);
    SortIsPermutation(ms, MatchLe);
    assert forall m :: m in sorted ==> m == ReadMatch(m.id, a);
    hide Sort, MatchLe, ReadMatch;
    if MatchIdsDistinct(sorted) {
      PermutationKeepsDistinct(sorted, ms);
    }
    if Distinct(ms) {
      PermutationKeepsDistinct(ms, sorted);
      forall i, j | 0 <= i < j < |sorted| ensures sorted[i].id != sorted[j].id {
        assert sorted[i] in sorted && sorted[j] in sorted && sorted[i] != sorted[j];
      }
    }
  }

  lemma OnlyArrangement(ms: seq<RuleMatch>, sorted: seq<RuleMatch>)
    requires MatchIdsDistinct(ms) && Ascending(sorted) && Elems(sorted) == Elems(ms)
    ensures Sort(ms, MatchLe) == sorted
  {
    AscendingMeans(sorted);
    MatchIdsOfMembers(ms);
    MatchIdsOfMembers(sorted);
    assert forall m :: m in sorted <==> m in Elems(sorted);
    assert forall m :: m in ms <==> m in Elems(ms);
    DistinctSameElems(ms, sorted);
    StrLeIsTotal();
    assert Preorder(MatchLe) by { hide StrLe; }
    SortForgetsOrder(ms, sorted, MatchLe);
    SortedMatchesStay(sorted);
  }

  lemma SetOfRead(ms: seq<RuleMatch>, ids: seq<string>, a: Applicability)
    requires ReadInTurn(ms, ids, a)
    ensures Elems(ms) == (set id | id in ids :: if a == MatchingBlock then RuleMatch(id, Block, Match, true)
                                               else RuleMatch(id, Allow, Match, false))
  {
    forall id | id in ids ensures ReadMatch(id, a) in ms {
      var i :| 0 <= i < |ids| && ids[i] == id;
      assert ms[i] == ReadMatch(id, a);
    }
  }

  lemma AcceptedMatches(m: PolicyMapping, digestOf: string -> Option<string>, a: Assessment, ms: seq<RuleMatch>)
    returns (ids: seq<string>)
    requires ReadMatches(m.digests, a.applicability, digestOf) == Some(ms)
    requires a.matches == Sort(ms, MatchLe) && Ascending(a.matches) && |a.matches| <= 16
    ensures Canonical(m.digests, ids, digestOf) && Distinct(ids) && |ids| <= 16 && IsReadFrom(a, ids)
  {
    DigestsAreRead(m.digests, a.applicability, digestOf);
    ids := seq(|ms|, i requires 0 <= i < |ms| => ms[i].id);
    assert Canonical(m.digests, ids, digestOf) && ReadInTurn(ms, ids, a.applicability);
    SortedRead(ms, ids, a.applicability);
    SetOfRead(ms, ids, a.applicability);
    SortIsPermutation(ms, MatchLe);
    hide ReadMatches, Sort, Sorted, MatchLe, StrLe, ReadInTurn, Canonical, Elems;
  }

  lemma AcceptedReadsAs(m: PolicyMapping, schema: PolicySchema, digestOf: string -> Option<string>, a: Assessment)
    requires ReadPolicy(m, schema, digestOf) == Some(a)
    ensures ReadsAs(m, schema, digestOf, a)
  {
    DispositionIs(m, schema, a.disposition);
    ReadValues(m.basis, a.basis);
    AscendingMeans(a.matches);
    hide ReadMatches, ReadDisposition, Sort, Sorted, Values, AllKnown, MatchLe, StrLe, ReadInTurn, Canonical, Elems,
      Disposes, ShowsEach, IsReadFrom, Ascending, Distinct;
    var ms := ReadMatches(m.digests, a.applicability, digestOf).value;
    var ids := AcceptedMatches(m, digestOf, a, ms);
  }

  lemma MatchesAreRead(m: PolicyMapping, digestOf: string -> Option<string>, a: Assessment, ids: seq<string>)
    requires Canonical(m.digests, ids, digestOf) && Distinct(ids) && IsReadFrom(a, ids)
    ensures ReadMatches(m.digests, a.applicability, digestOf).Some?
    ensures Sort(ReadMatches(m.digests, a.applicability, digestOf).value, MatchLe) == a.matches
    ensures |a.matches| == |ids| && Sorted(a.matches, MatchLe) && MatchIdsDistinct(a.matches)
  {
    DigestsAreRead(m.digests, a.applicability, digestOf);
    var ms := ReadMatches(m.digests, a.applicability, digestOf).value;
    assert ReadInTurn(ms, ids, a.applicability);
    RepeatsAre(ms, ids, a.applicability);
    SetOfRead(ms, ids, a.applicability);
    hide ReadMatches, Sort, Sorted, MatchLe, StrLe, ReadInTurn, Canonical, Elems;
    assert Ascending(a.matches);
    OnlyArrangement(ms, a.matches);
    SortIsPermutation(ms, MatchLe);
    AscendingMeans(a.matches);
  }

  lemma ReadsAsAccepted(m: PolicyMapping, schema: PolicySchema, digestOf: string -> Option<string>, a: Assessment)
    requires ReadsAs(m, schema, digestOf, a)
    ensures ReadPolicy(m, schema, digestOf) == Some(a)
  {
    var ids :| Canonical(m.digests, ids, digestOf) && Distinct(ids) && |ids| <= 16 && IsReadFrom(a, ids);
    DispositionIs(m, schema, a.disposition);
    ReadValues(m.basis, a.basis);
    MatchesAreRead(m, digestOf, a, ids);
    KindsRead(a, ids);
    hide ReadMatches, ReadDisposition, Sort, Sorted, Values, AllKnown, MatchLe, StrLe, Canonical, Disposes, ShowsEach,
      IsReadFrom, Distinct;
  }

  lemma KindsRead(a: Assessment, ids: seq<string>)
    requires IsReadFrom(a, ids)
    ensures forall m :: m in a.matches ==>
      && m.condition == Match
      && (if a.applicability == MatchingBlock then m.action == Block && m.universal else m.action == Allow)
  {
    hide StrLe;
    assert forall m :: m in a.matches ==> m in Elems(a.matches);
  }

  /** A network context is accepted exactly if it shows an assessment with distinct evidence and an accepted policy. */
  lemma ReachAcceptedExactlyWhen(m: ReachMapping, schema: PolicySchema, digestOf: string -> Option<string>, r: Reach)
    ensures ReadReach(m, schema, digestOf) == Some(r) <==>
      && m.bindRole == "OBSERVED_FACT" && m.stateRole == "DETERMINISTIC_DERIVATION"
      && m.exposure == Known(r.exposure) && m.state == Known(r.state)
      && ShowsEach(m.basis, r.basis) && r.basis != [] && Distinct(r.basis)
      && (m.policy.Some? <==> r.policy.Some?)
      && (r.policy.Some? ==> m.policy.Some? && ReadsAs(m.policy.value, schema, digestOf, r.policy.value))
  {
    ReadValues(m.basis, r.basis);
    if m.policy.Some? {
      if r.policy.Some? { PolicyAcceptedExactlyWhen(m.policy.value, schema, digestOf, r.policy.value); }
      ReadIsValid(m.policy.value, schema, digestOf);
    }
    hide ReadPolicy, ReadsAs, ValidAssessment, AllKnown, Values, ShowsEach, Distinct;
  }

  lemma ReadIsValid(m: PolicyMapping, schema: PolicySchema, digestOf: string -> Option<string>)
    ensures ReadPolicy(m, schema, digestOf).Some? ==> ValidAssessment(ReadPolicy(m, schema, digestOf).value)
  {
    hide ValidAssessment, ReadMatches, Sort;
  }
}
