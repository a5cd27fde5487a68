/** Which requests are accepted and what is bound, in the terms of the request, its capability and its policies. */
module ProposalAcceptance {
  import opened Common
  import opened Orders
  import opened Encoding
  import opened Proposals

  /** No two policies are for the same parameter of the same capability. */
  ghost predicate PoliciesDiffer(policies: seq<Policy>) {
    forall p, q :: p in policies && q in policies && p.capabilityId == q.capabilityId && p.key == q.key ==> p == q
  }

  ghost predicate IsFor(policy: Policy, m: Metadata, key: string) {
    policy.capabilityId == m.capabilityId && policy.key == key
  }

  /** x is the default of a parameter that the request leaves out. */
  ghost predicate FillsIn(m: Metadata, policies: seq<Policy>, ps: seq<Parameter>, x: Parameter) {
    exists spec, policy ::
      && spec in m.parameters && policy in policies && IsFor(policy, m, spec.key) && policy.default == Some(x)
      && forall p :: p in ps ==> p.key != spec.key
  }

  /** A value within the range and among the texts of its policy. */
  ghost predicate Allows(policy: Policy, value: string, readers: Readers) {
    && (match policy.range
        case None => true
        case Some((least, most)) => least <= readers.intOf(value) && readers.intOf(value) <= most)
    && (policy.allowedText == [] || value in policy.allowedText)
  }

  /** A score history runs from one time to the same or a later one, at most 366 days later. */
  ghost predicate IsHistory(m: Metadata, policies: seq<Policy>, ps: seq<Parameter>, readers: Readers) {
    exists first, last, from, to ::
      && Means(m, policies, ps, first) && first.key == "start_at" && readers.timeOf(first.value) == Some(from)
      && Means(m, policies, ps, last) && last.key == "end_at" && readers.timeOf(last.value) == Some(to)
      && from <= to && to - from <= 31_622_400_000_000
  }

  /** x is supplied or filled in. */
  ghost predicate Means(m: Metadata, policies: seq<Policy>, ps: seq<Parameter>, x: Parameter) {
    x in ps || FillsIn(m, policies, ps, x)
  }

  lemma {:induction false} PolicyForMeans(policies: seq<Policy>, capabilityId: string, key: string)
    ensures PolicyFor(policies, capabilityId, key).Some?
      <==> exists p :: p in policies && p.capabilityId == capabilityId && p.key == key
    ensures var r := PolicyFor(policies, capabilityId, key);
      r.Some? ==> r.value in policies && r.value.capabilityId == capabilityId && r.value.key == key
  {
    if policies != [] {
      assert policies == [policies[0]] + policies[1..];
      PolicyForMeans(policies[1..], capabilityId, key);
    }
  }

  lemma DefaultForIs(m: Metadata, policies: seq<Policy>, key: string, x: Parameter)
    requires PoliciesDiffer(policies)
    ensures DefaultFor(m, policies, key) == Some(x)
      <==> exists policy :: policy in policies && IsFor(policy, m, key) && policy.default == Some(x)
  {
    PolicyForMeans(policies, m.capabilityId, key);
    hide PolicyFor;
  }

  lemma MissingIsFilledIn(m: Metadata, policies: seq<Policy>, ps: seq<Parameter>, x: Parameter)
    requires PoliciesDiffer(policies)
    ensures IsMissingDefault(m, policies, m.parameters, ps, x) <==> FillsIn(m, policies, ps, x)
  {
    forall s { DefaultForIs(m, policies, s, x); }
    hide DefaultFor, IsFor, PoliciesDiffer;
    if IsMissingDefault(m, policies, m.parameters, ps, x) {
      var s :| s in m.parameters && !HasKey(ps, s.key) && DefaultFor(m, policies, s.key) == Some(x);
      var policy :| policy in policies && IsFor(policy, m, s.key) && policy.default == Some(x);
    }
    if FillsIn(m, policies, ps, x) {
      var s, policy :|
        && s in m.parameters && policy in policies && IsFor(policy, m, s.key) && policy.default == Some(x)
        && forall p :: p in ps ==> p.key != s.key;
      assert DefaultFor(m, policies, s.key) == Some(x);
    }
  }

  /** The effective parameters: what is supplied or filled in, by ascending key, each key once. */
  lemma EffectiveIs(m: Metadata, policies: seq<Policy>, ps: seq<Parameter>)
    requires WellFormed(m, policies) && PoliciesDiffer(policies) && KeysDiffer(ps)
    ensures forall x :: x in Effective(m, policies, ps) <==> Means(m, policies, ps, x)
    ensures var e := Effective(m, policies, ps);
      forall i, j :: 0 <= i < j < |e| ==> e[i].key != e[j].key && StrLe(e[i].key, e[j].key)
  {
    EffectiveIsCanonical(m, policies, ps);
    forall x { MissingIsFilledIn(m, policies, ps, x); }
    hide Effective, IsMissingDefault, FillsIn, WellFormed, StrLe;
  }

  lemma SpecifiedIs(m: Metadata, p: Parameter)
    requires forall i, j :: 0 <= i < j < |m.parameters| ==> m.parameters[i].key != m.parameters[j].key
    ensures Specified(m, p) <==> exists s :: s in m.parameters && s.key == p.key && s.kind == p.kind
  {
    SpecForMeans(m.parameters, p.key);
    hide SpecFor;
  }

  lemma AllowsIs(policy: Policy, value: string, readers: Readers)
    ensures Allows(policy, value, readers) <==>
      && (policy.range.Some? ==> policy.range.value.0 <= readers.intOf(value) <= policy.range.value.1)
      && (policy.allowedText != [] ==> value in policy.allowedText)
  {
  }

  lemma ValueOkIs(m: Metadata, policies: seq<Policy>, p: Parameter, readers: Readers)
    requires PoliciesDiffer(policies)
    ensures ValueOk(m, policies, p, readers)
      <==> forall policy :: policy in policies && IsFor(policy, m, p.key) ==> Allows(policy, p.value, readers)
  {
    PolicyForMeans(policies, m.capabilityId, p.key);
    forall policy { AllowsIs(policy, p.value, readers); }
    hide PolicyFor, Allows;
  }

  lemma {:induction false} ValueWithIs(ps: seq<Parameter>, key: string)
    requires KeysAscend(ps)
    ensures ValueWith(ps, key).Some? <==> exists p :: p in ps && p.key == key
    ensures forall p :: p in ps && p.key == key ==> ValueWith(ps, key) == Some(p.value)
  {
    hide StrLe;
    if ps != [] {
      assert ps == [ps[0]] + ps[1..];
      ValueWithIs(ps[1..], key);
    }
  }

  lemma RangeOkIs(m: Metadata, policies: seq<Policy>, ps: seq<Parameter>, readers: Readers)
    requires WellFormed(m, policies) && PoliciesDiffer(policies) && KeysAscend(ps)
    ensures RangeOk(m, Effective(m, policies, ps), readers) <==>
      (m.capabilityId == "cyberwatchtower.application.get_score_history" ==> IsHistory(m, policies, ps, readers))
  {
    EffectiveIs(m, policies, ps);
    var e := Effective(m, policies, ps);
    hide Effective, WellFormed, Means, StrLe;
    assert KeysAscend(e);
    ValueWithIs(e, "start_at");
    ValueWithIs(e, "end_at");
    hide ValueWith, PoliciesDiffer, KeysAscend;
  }

  /**
   * A request's parameters are accepted exactly if there are at most 32, with ascending keys, each
   * of a declared key and kind, every required key is there, and every value supplied or filled in
   * is one its policy allows; a score history must also span a range of at most 366 days.
   */
  lemma AcceptedExactlyWhen(m: Metadata, policies: seq<Policy>, ps: seq<Parameter>, readers: Readers)
    requires WellFormed(m, policies) && PoliciesDiffer(policies)
    ensures Accepted(m, policies, ps, readers) <==>
      && |ps| <= 32
      && (forall i, j :: 0 <= i < j < |ps| ==> ps[i].key != ps[j].key && StrLe(ps[i].key, ps[j].key))
      && (forall p :: p in ps ==> exists s :: s in m.parameters && s.key == p.key && s.kind == p.kind)
      && (forall s :: s in m.parameters && s.required ==> exists p :: p in ps && p.key == s.key)
      && (forall x, policy :: Means(m, policies, ps, x) && policy in policies && IsFor(policy, m, x.key) ==>
            Allows(policy, x.value, readers))
      && (m.capabilityId == "cyberwatchtower.application.get_score_history" ==> IsHistory(m, policies, ps, readers))
  {
    hide StrLe;
    if KeysAscend(ps) {
      EffectiveIs(m, policies, ps);
      RangeOkIs(m, policies, ps, readers);
      forall p { SpecifiedIs(m, p); }
      forall p { ValueOkIs(m, policies, p, readers); }
      hide Effective, WellFormed, PoliciesDiffer, Specified, ValueOk, RangeOk, IsHistory, Means, IsFor, Allows;
    }
  }

  // ----- what is bound

  /** The reports a capability must name. */
  ghost predicate NamesReports(capabilityId: string, reports: nat) {
    && (capabilityId == "cyberwatchtower.application.compare_saved_reports" ==> reports == 2)
    && (capabilityId == "cyberwatchtower.application.get_saved_report" ==> reports == 1)
    && (capabilityId == "cyberwatchtower.application.ingest_saved_report_into_memory" ==> reports == 1)
    && (capabilityId == "cyberwatchtower.application.get_finding_timeline" ==> reports == 0)
  }

  /** A target fits if it is of the requesting system, of a supported kind and with the reports the capability takes. */
  lemma TargetFitsExactlyWhen(m: Metadata, request: Request)
    ensures TargetFitsCapability(m, request) <==>
      && request.target.systemId == request.systemId
      && (exists k :: k in m.targetKinds && k == request.target.kind)
      && NamesReports(m.capabilityId, |request.target.reportIds|)
  {
  }
}
