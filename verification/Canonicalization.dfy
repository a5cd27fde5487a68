/** Merging transient network finding instances under their durable identity. */
module Canonicalization {
  import opened Common
  import opened Grouping
  import opened Text
  import opened Vocabulary
  import opened ScoringContracts

  const MAX_RUNTIME_INSTANCE_COUNT := 65_536

  /** Evidence labels that identify a finding, in text order. */
  const IDENTITY_FIELDS: seq<string> := ["address", "application", "port", "process", "protocol"]

  datatype Finding = Finding(
    title: string,
    description: string,
    severity: Severity,
    recommendation: string,
    evidence: seq<string>,
    confidence: int,
    techniqueId: Option<string>,
    findingId: Option<string>,
    source: string,
    kind: FindingKind,
    assessment: AssessmentState,
    networkContext: Option<string>,
    presentationGroup: Option<string>,
    count: nat)

  datatype Candidate = Candidate(finding: Finding, identity: NetworkScoringIdentity, pid: Option<nat>)

  datatype MergeError = ConflictingSemantics | NotDistinctInstances | MultiplicityTooLarge

  // ----- identity

  /** The text before the first colon, or all of it. */
  function BeforeColon(s: string): string {
    if s == "" || s[0] == ':' then "" else [s[0]] + BeforeColon(s[1..])
  }

  function Label(item: string, text: TextServices): string {
    text.casefold(text.Strip(BeforeColon(item)))
  }

  function ValueOf(item: string, text: TextServices): string
    requires ':' in item
  {
    BeforeColonIsShort(item);
    text.casefold(text.Strip(item[|BeforeColon(item)| + 1..]))
  }

  lemma {:induction false} BeforeColonIsShort(s: string)
    ensures ':' in s ==> |BeforeColon(s)| < |s|
    ensures |BeforeColon(s)| <= |s|
  {
    if s != "" && s[0] != ':' { BeforeColonIsShort(s[1..]); }
  }

  /** Evidence values by identifying label; later entries replace earlier ones. */
  function EvidenceValues(evidence: seq<string>, text: TextServices): map<string, string> {
    if evidence == [] then map[]
    else
      var before := EvidenceValues(evidence[..|evidence| - 1], text);
      var item := evidence[|evidence| - 1];
      if ':' in item && Label(item, text) in IDENTITY_FIELDS then before[Label(item, text) := ValueOf(item, text)]
      else before
  }

  function FieldComponents(fields: seq<string>, values: map<string, string>): string {
    if fields == [] then ""
    else
      (if fields[0] in values then "|" + fields[0] + "=" + values[fields[0]] else "")
      + FieldComponents(fields[1..], values)
  }

  function Truthy(s: Option<string>): bool {
    s.Some? && s.value != ""
  }

  function FindingIdentity(f: Finding, text: TextServices): string {
    "type=" + text.casefold(text.Strip(f.title))
    + (if Truthy(f.techniqueId) then "|technique_id=" + text.casefold(text.Strip(f.techniqueId.value)) else "")
    + FieldComponents(IDENTITY_FIELDS, EvidenceValues(f.evidence, text))
  }

  function CanonicalId(f: Finding, text: TextServices): string {
    if Truthy(f.findingId) then f.findingId.value else FindingIdentity(f, text)
  }

  // ----- durable semantics

  function DurableEvidence(evidence: seq<string>, text: TextServices): seq<string> {
    if evidence == [] then []
    else
      var last := evidence[|evidence| - 1];
      DurableEvidence(evidence[..|evidence| - 1], text) + (if Label(last, text) == "pid" then [] else [last])
  }

  /** Everything but the process ids, the multiplicity and the form of the id. */
  datatype Semantics = Semantics(
    id: string, source: string, severity: Severity, kind: FindingKind, assessment: AssessmentState, title: string,
    description: string, techniqueId: Option<string>, recommendation: string, confidence: int, evidence: seq<string>,
    networkContext: Option<string>, presentationGroup: Option<string>, identity: NetworkScoringIdentity)

  function DurableSemantics(c: Candidate, text: TextServices): Semantics {
    var f := c.finding;
    Semantics(CanonicalId(f, text), f.source, f.severity, f.kind, f.assessment, f.title, f.description, f.techniqueId,
              f.recommendation, f.confidence, DurableEvidence(f.evidence, text), f.networkContext, f.presentationGroup,
              c.identity)
  }

  function CountOf(c: Candidate): nat { c.finding.count }

  function PidsOf(cs: seq<Candidate>): seq<Option<nat>> {
    seq(|cs|, i requires 0 <= i < |cs| => cs[i].pid)
  }

  predicate SameSemantics(members: seq<Candidate>, text: TextServices)
    requires members != []
  {
    forall c :: c in members[1..] ==> DurableSemantics(c, text) == DurableSemantics(members[0], text)
  }

  /** Two or more instances must each name a process, all different. */
  predicate DistinctInstances(members: seq<Candidate>) {
    |members| > 1 ==>
      (forall p :: p in PidsOf(members) ==> p.Some?) && |set p | p in PidsOf(members)| == |members|
  }

  function MergeFailure(members: seq<Candidate>, text: TextServices): Option<MergeError>
    requires members != []
  {
    if !SameSemantics(members, text) then Some(ConflictingSemantics)
    else if !DistinctInstances(members) then Some(NotDistinctInstances)
    else if SumBy(members, CountOf) > MAX_RUNTIME_INSTANCE_COUNT then Some(MultiplicityTooLarge)
    else None
  }

  /** The first member, with the summed multiplicity; evidence loses its process ids once there is more than one. */
  function Merged(members: seq<Candidate>, text: TextServices): (Finding, NetworkScoringIdentity)
    requires members != []
  {
    var first, count := members[0].finding, SumBy(members, CountOf);
    (if count > 1 then first.(evidence := DurableEvidence(first.evidence, text), count := count) else first,
     members[0].identity)
  }

  function ById(text: TextServices): Candidate -> string {
    (c: Candidate) => CanonicalId(c.finding, text)
  }

  lemma BucketNotEmpty(cs: seq<Candidate>, text: TextServices, id: string)
    requires id in FirstSeen(cs, ById(text))
    ensures Bucket(cs, ById(text), id) != []
    ensures forall c :: c in Bucket(cs, ById(text), id) ==> CanonicalId(c.finding, text) == id
  {
    FirstSeenFacts(cs, ById(text));
    BucketFacts(cs, ById(text), id);
    hide FirstSeen, Bucket, CanonicalId;
    var c :| c in cs && ById(text)(c) == id;
    assert c in Bucket(cs, ById(text), id);
  }

  /** Outcome by outcome: which group fails first, or what each group becomes. */
  method Canonicalize(cs: seq<Candidate>, text: TextServices)
    returns (r: Result<seq<(Finding, NetworkScoringIdentity)>, MergeError>)
    ensures r.Ok? ==> IsMergeOf(r.value, cs, text)
    ensures r.Err? ==>
      var order := FirstSeen(cs, ById(text));
      exists k ::
        && 0 <= k < |order| && Fails(Bucket(cs, ById(text), order[k]), text, r.error)
        && forall j :: 0 <= j < k ==> Succeeds(Bucket(cs, ById(text), order[j]), text)
  {
    hide FirstSeen, Bucket, CanonicalId;
    var order, grouped := GroupBy(cs, ById(text));
    var canonical: seq<(Finding, NetworkScoringIdentity)> := [];
    for k := 0 to |order|
      invariant |canonical| == k
      invariant forall j :: 0 <= j < k ==>
        var members := Bucket(cs, ById(text), order[j]);
        members != [] && MergeFailure(members, text).None? && canonical[j] == Merged(members, text)
    {
      BucketNotEmpty(cs, text, order[k]);
      var members := grouped[order[k]];
      hide MergeFailure, Merged;
      var failure := MergeFailure(members, text);
      if failure.Some? { return Err(failure.value); }
      canonical := canonical + [Merged(members, text)];
    }
    r := Ok(canonical);
  }

  predicate Fails(members: seq<Candidate>, text: TextServices, e: MergeError) {
    members != [] && MergeFailure(members, text) == Some(e)
  }

  predicate Succeeds(members: seq<Candidate>, text: TextServices) {
    members != [] && MergeFailure(members, text).None?
  }

  // ----- identity does not see process ids

  lemma PidIsNoIdentity()
    ensures "pid" !in IDENTITY_FIELDS
  {
    assert |"pid"| == 3 && forall i :: 0 <= i < |IDENTITY_FIELDS| ==> |IDENTITY_FIELDS[i]| > 3;
  }

  lemma {:induction false} DurableEvidenceKeepsValues(evidence: seq<string>, text: TextServices)
    ensures EvidenceValues(DurableEvidence(evidence, text), text) == EvidenceValues(evidence, text)
  {
    hide Label, ValueOf;
    if evidence != [] {
      var init, last := evidence[..|evidence| - 1], evidence[|evidence| - 1];
      DurableEvidenceKeepsValues(init, text);
      PidIsNoIdentity();
      var kept := DurableEvidence(init, text);
      if Label(last, text) == "pid" {
        assert DurableEvidence(evidence, text) == kept;
      } else {
        assert (kept + [last])[..|kept|] == kept;
      }
    }
  }

  lemma {:induction false} DurableTwice(evidence: seq<string>, text: TextServices)
    ensures DurableEvidence(DurableEvidence(evidence, text), text) == DurableEvidence(evidence, text)
  {
    hide Label;
    if evidence != [] {
      var init, last := evidence[..|evidence| - 1], evidence[|evidence| - 1];
      DurableTwice(init, text);
      var kept := DurableEvidence(init, text);
      if Label(last, text) == "pid" {
        assert DurableEvidence(evidence, text) == kept;
      } else {
        assert (kept + [last])[..|kept|] == kept;
      }
    }
  }

  /** The identity of a finding does not change when process ids are dropped or instances counted. */
  lemma IdIgnoresPid(f: Finding, count: nat, text: TextServices)
    ensures CanonicalId(f.(evidence := DurableEvidence(f.evidence, text), count := count), text) == CanonicalId(f, text)
  {
    DurableEvidenceKeepsValues(f.evidence, text);
    hide EvidenceValues, DurableEvidence, FieldComponents;
  }

  // ----- what a successful merge promises

  ghost predicate IsMergeOf(merged: seq<(Finding, NetworkScoringIdentity)>, cs: seq<Candidate>, text: TextServices) {
    var order := FirstSeen(cs, ById(text));
    && |merged| == |order|
    && forall k :: 0 <= k < |order| ==>
         var members := Bucket(cs, ById(text), order[k]);
         members != [] && MergeFailure(members, text).None? && merged[k] == Merged(members, text)
  }

  /** Each durable identity appears once, in the order of first sight. */
  lemma MergedIdsAreFirstSeen(merged: seq<(Finding, NetworkScoringIdentity)>, cs: seq<Candidate>, text: TextServices)
    requires IsMergeOf(merged, cs, text)
    ensures forall k :: 0 <= k < |merged| ==> CanonicalId(merged[k].0, text) == FirstSeen(cs, ById(text))[k]
    ensures forall i, j :: 0 <= i < j < |merged| ==> CanonicalId(merged[i].0, text) != CanonicalId(merged[j].0, text)
  {
    var order := FirstSeen(cs, ById(text));
    FirstSeenFacts(cs, ById(text));
    hide FirstSeen, Bucket, CanonicalId, MergeFailure;
    forall k | 0 <= k < |merged| ensures CanonicalId(merged[k].0, text) == order[k] {
      BucketNotEmpty(cs, text, order[k]);
      var members := Bucket(cs, ById(text), order[k]);
      assert members[0] in members;
      IdIgnoresPid(members[0].finding, SumBy(members, CountOf), text);
    }
  }

  lemma {:induction false} OneBucketChanges(order: seq<string>, cs: seq<Candidate>, last: Candidate, text: TextServices)
    requires Distinct(order)
    ensures SumBuckets(order, cs + [last], text)
      == SumBuckets(order, cs, text) + if CanonicalId(last.finding, text) in order then last.finding.count else 0
  {
    hide CanonicalId;
    if order != [] {
      var id := order[0];
      OneBucketChanges(order[1..], cs, last, text);
      assert (cs + [last])[..|cs|] == cs;
      assert Bucket(cs + [last], ById(text), id)
        == Bucket(cs, ById(text), id) + (if CanonicalId(last.finding, text) == id then [last] else []);
      SumByConcat(Bucket(cs, ById(text), id), if CanonicalId(last.finding, text) == id then [last] else [], CountOf);
      OneCount(last);
      hide Bucket;
      assert order == [id] + order[1..] && id !in order[1..];
    }
  }

  lemma OneCount(c: Candidate)
    ensures SumBy([c], CountOf) == c.finding.count && SumBy([], CountOf) == 0
  {
    assert [c][1..] == [];
  }

  function SumBuckets(order: seq<string>, cs: seq<Candidate>, text: TextServices): nat {
    if order == [] then 0 else SumBy(Bucket(cs, ById(text), order[0]), CountOf) + SumBuckets(order[1..], cs, text)
  }

  lemma {:induction false} SumBucketsSnoc(order: seq<string>, id: string, cs: seq<Candidate>, text: TextServices)
    ensures SumBuckets(order + [id], cs, text)
      == SumBuckets(order, cs, text) + SumBy(Bucket(cs, ById(text), id), CountOf)
  {
    hide Bucket;
    if order == [] {
      assert [id][1..] == [];
    } else {
      assert (order + [id])[1..] == order[1..] + [id];
      SumBucketsSnoc(order[1..], id, cs, text);
    }
  }

  lemma {:induction false} NoMemberNoBucket(cs: seq<Candidate>, text: TextServices, id: string)
    requires id !in FirstSeen(cs, ById(text))
    ensures Bucket(cs, ById(text), id) == []
  {
    FirstSeenFacts(cs, ById(text));
    BucketFacts(cs, ById(text), id);
    hide FirstSeen, Bucket, CanonicalId;
    var b := Bucket(cs, ById(text), id);
    assert forall c :: c in b ==> ById(text)(c) in FirstSeen(cs, ById(text));
    assert forall c :: c in b ==> ById(text)(c) == id;
    NonEmptyHasMember(b);
  }

  /** Filing candidates under their ids loses and invents no instance. */
  lemma {:induction false} BucketsHoldAll(cs: seq<Candidate>, text: TextServices)
    ensures SumBuckets(FirstSeen(cs, ById(text)), cs, text) == SumBy(cs, CountOf)
  {
    if cs != [] {
      var init, last := cs[..|cs| - 1], cs[|cs| - 1];
      assert cs == init + [last];
      BucketsHoldAll(init, text);
      FirstSeenFacts(init, ById(text));
      SumByConcat(init, [last], CountOf);
      OneCount(last);
      var before := FirstSeen(init, ById(text));
      var id := CanonicalId(last.finding, text);
      assert FirstSeen(cs, ById(text)) == if id in before then before else before + [id];
      hide FirstSeen, CanonicalId, SumBy;
      OneBucketChanges(before, init, last, text);
      if id !in before {
        NoMemberNoBucket(init, text, id);
        assert Bucket(cs, ById(text), id) == Bucket(init, ById(text), id) + [last];
        hide Bucket;
        SumBucketsSnoc(before, id, cs, text);
      }
    }
  }

  function MergedCount(m: (Finding, NetworkScoringIdentity)): nat { m.0.count }

  lemma {:induction false} CountsOfMerged(merged: seq<(Finding, NetworkScoringIdentity)>, order: seq<string>,
                                          cs: seq<Candidate>, text: TextServices)
    requires |merged| == |order|
    requires forall k :: 0 <= k < |order| ==> merged[k].0.count == SumBy(Bucket(cs, ById(text), order[k]), CountOf)
    ensures SumBy(merged, MergedCount) == SumBuckets(order, cs, text)
  {
    hide Bucket;
    if order != [] { CountsOfMerged(merged[1..], order[1..], cs, text); }
  }

  lemma MergedCountIsSum(members: seq<Candidate>, text: TextServices)
    requires members != [] && forall c :: c in members ==> c.finding.count >= 1
    ensures Merged(members, text).0.count == SumBy(members, CountOf)
  {
    assert members[0] in members;
    assert SumBy(members, CountOf) == members[0].finding.count + SumBy(members[1..], CountOf);
  }

  /** The total number of running instances is conserved. */
  lemma InstancesAreConserved(merged: seq<(Finding, NetworkScoringIdentity)>, cs: seq<Candidate>, text: TextServices)
    requires IsMergeOf(merged, cs, text) && forall c :: c in cs ==> c.finding.count >= 1
    ensures SumBy(merged, MergedCount) == SumBy(cs, CountOf)
  {
    var order := FirstSeen(cs, ById(text));
    hide FirstSeen, CanonicalId, MergeFailure, Merged, Bucket;
    forall k | 0 <= k < |order| ensures merged[k].0.count == SumBy(Bucket(cs, ById(text), order[k]), CountOf) {
      var members := Bucket(cs, ById(text), order[k]);
      BucketFacts(cs, ById(text), order[k]);
      MergedCountIsSum(members, text);
    }
    CountsOfMerged(merged, order, cs, text);
    BucketsHoldAll(cs, text);
  }

  /** Merging a merged finding again changes nothing. */
  lemma MergeIsIdempotent(members: seq<Candidate>, pid: Option<nat>, text: TextServices)
    requires members != [] && MergeFailure(members, text).None? && forall c :: c in members ==> c.finding.count >= 1
    ensures var m := Merged(members, text);
      var again := [Candidate(m.0, m.1, pid)];
      MergeFailure(again, text).None? && Merged(again, text) == m
  {
    var m := Merged(members, text);
    var again := [Candidate(m.0, m.1, pid)];
    MergedCountIsSum(members, text);
    DurableTwice(members[0].finding.evidence, text);
    OneCount(again[0]);
    hide SumBy, CanonicalId, DurableEvidence;
    assert again[1..] == [];
  }

  /** Every instance a merged finding stands for has its durable semantics. */
  lemma MergeSpeaksForAll(members: seq<Candidate>, text: TextServices, c: Candidate)
    requires members != [] && MergeFailure(members, text).None? && c in members
    ensures var m := Merged(members, text);
      DurableSemantics(Candidate(m.0, m.1, None), text) == DurableSemantics(c, text)
  {
    DurableTwice(members[0].finding.evidence, text);
    IdIgnoresPid(members[0].finding, SumBy(members, CountOf), text);
    hide CanonicalId, DurableEvidence, SumBy;
    assert members == [members[0]] + members[1..];
  }
}
