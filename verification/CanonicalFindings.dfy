/** Canonical findings in the terms of their instances: identity texts, durable evidence, merging and multiplicity. */
module CanonicalFindings {
  import opened Common
  import opened Orders
  import opened Grouping
  import opened Text
  import opened ScoringContracts
  import opened Canonicalization

  // ----- evidence

  lemma {:induction false} SplitsAtColon(name: string, value: string)
    requires ':' !in name
    ensures BeforeColon(name + ":" + value) == name && BeforeColon(name) == name
  {
    var s := name + ":" + value;
    if name != "" {
      assert s[1..] == name[1..] + ":" + value;
      SplitsAtColon(name[1..], value);
      assert s[0] == name[0];
    }
  }

  /** Evidence is a label and a value, parted by the first colon, both stripped and folded. */
  lemma EvidenceParts(name: string, value: string, text: TextServices)
    requires ':' !in name
    ensures Label(name + ":" + value, text) == text.casefold(text.Strip(name)) == Label(name, text)
    ensures ValueOf(name + ":" + value, text) == text.casefold(text.Strip(value))
  {
    SplitsAtColon(name, value);
    assert (name + ":" + value)[|name| + 1..] == value;
  }

  /** Evidence without its process ids. */
  function WithoutPids(evidence: seq<string>, text: TextServices): seq<string> {
    if evidence == [] then []
    else if Label(evidence[0], text) == "pid" then WithoutPids(evidence[1..], text)
    else [evidence[0]] + WithoutPids(evidence[1..], text)
  }

  lemma {:induction false} DurableIsWithoutPids(evidence: seq<string>, text: TextServices)
    ensures DurableEvidence(evidence, text) == WithoutPids(evidence, text)
  {
    if evidence != [] {
      DurableFromFront(evidence[0], evidence[1..], text);
      DurableIsWithoutPids(evidence[1..], text);
      assert evidence == [evidence[0]] + evidence[1..];
    }
  }

  lemma {:induction false} DurableFromFront(x: string, rest: seq<string>, text: TextServices)
    ensures DurableEvidence([x] + rest, text)
      == (if Label(x, text) == "pid" then [] else [x]) + DurableEvidence(rest, text)
  {
    hide Label;
    if rest == [] {
      assert [x] + rest == [x] && [x][..0] == [];
    } else {
      assert ([x] + rest)[..|rest|] == [x] + rest[..|rest| - 1];
      DurableFromFront(x, rest[..|rest| - 1], text);
    }
  }

  // ----- identity

  const FIELDS := {"address", "application", "port", "process", "protocol"}

  /** The evidence gives the field this value: it is that of the last entry so labelled. */
  ghost predicate Gives(evidence: seq<string>, field: string, value: string, text: TextServices) {
    exists i ::
      && 0 <= i < |evidence| && HasValue(evidence[i], field, value, text)
      && forall j :: i < j < |evidence| ==> !IsEntry(evidence[j], field, text)
  }

  predicate IsEntry(item: string, field: string, text: TextServices) {
    ':' in item && Label(item, text) == field
  }

  predicate HasValue(item: string, field: string, value: string, text: TextServices) {
    IsEntry(item, field, text) && ValueOf(item, text) == value
  }

  lemma GivesLast(init: seq<string>, last: string, field: string, value: string, text: TextServices)
    ensures Gives(init + [last], field, value, text) <==>
      if IsEntry(last, field, text) then HasValue(last, field, value, text) else Gives(init, field, value, text)
  {
    assert HasValue(last, field, value, text) ==> IsEntry(last, field, text);
    hide IsEntry, HasValue;
    var all := init + [last];
    assert forall i :: 0 <= i < |init| ==> all[i] == init[i];
    assert all[|init|] == last;
    if Gives(init, field, value, text) && !IsEntry(last, field, text) {
      var i :|
        && 0 <= i < |init| && HasValue(init[i], field, value, text)
        && forall j :: i < j < |init| ==> !IsEntry(init[j], field, text);
      assert HasValue(all[i], field, value, text);
    }
    if HasValue(last, field, value, text) { assert HasValue(all[|init|], field, value, text); }
  }

  /** The identifying fields found in evidence. */
  lemma {:induction false} FieldsAre(evidence: seq<string>, field: string, text: TextServices)
    ensures var values := EvidenceValues(evidence, text);
      && (field in values <==> field in FIELDS && exists value :: Gives(evidence, field, value, text))
      && forall value :: field in values && values[field] == value ==> Gives(evidence, field, value, text)
  {
    if evidence != [] {
      var init, last := evidence[..|evidence| - 1], evidence[|evidence| - 1];
      assert evidence == init + [last];
      FieldsAre(init, field, text);
      FieldNames(Label(last, text));
      forall value { GivesLast(init, last, field, value, text); }
      hide Label, ValueOf, Gives;
      if IsEntry(last, field, text) {
        assert HasValue(last, field, ValueOf(last, text), text) && Gives(evidence, field, ValueOf(last, text), text);
      }
    }
  }

  lemma FieldNames(name: string)
    ensures name in IDENTITY_FIELDS <==> name in FIELDS
  {
    var fields := IDENTITY_FIELDS;
    assert fields[0] == "address" && fields[1] == "application" && fields[2] == "port" && fields[3] == "process";
    assert fields[4] == "protocol";
  }

  /** The values that evidence gives the identifying fields. */
  ghost predicate AreFound(found: map<string, string>, evidence: seq<string>, text: TextServices) {
    && (forall field :: field in found <==> field in FIELDS && exists value :: Gives(evidence, field, value, text))
    && forall field :: field in found ==> Gives(evidence, field, found[field], text)
  }

  function Component(found: map<string, string>, field: string): string {
    if field in found then "|" + field + "=" + found[field] else ""
  }

  /** Title, technique and the five identifying fields in text order. */
  function IdentityText(f: Finding, found: map<string, string>, text: TextServices): string {
    "type=" + text.casefold(text.Strip(f.title))
    + (match f.techniqueId
       case None => ""
       case Some(technique) => if technique == "" then "" else "|technique_id=" + text.casefold(text.Strip(technique)))
    + Components(found)
  }

  function Components(found: map<string, string>): string {
    Component(found, "address")
    + (Component(found, "application")
       + (Component(found, "port") + (Component(found, "process") + Component(found, "protocol"))))
  }

  lemma GivesOne(evidence: seq<string>, field: string, a: string, b: string, text: TextServices)
    requires Gives(evidence, field, a, text) && Gives(evidence, field, b, text)
    ensures a == b
  {
    var i :| 0 <= i < |evidence| && HasValue(evidence[i], field, a, text)
      && forall j :: i < j < |evidence| ==> !IsEntry(evidence[j], field, text);
    var k :| 0 <= k < |evidence| && HasValue(evidence[k], field, b, text)
      && forall j :: k < j < |evidence| ==> !IsEntry(evidence[j], field, text);
    assert i == k;
  }

  lemma FoundAreValues(found: map<string, string>, evidence: seq<string>, text: TextServices)
    requires AreFound(found, evidence, text)
    ensures EvidenceValues(evidence, text) == found
  {
    var values := EvidenceValues(evidence, text);
    forall field ensures field in values <==> field in found
      ensures field in found && field in values ==> found[field] == values[field]
    {
      FieldsAre(evidence, field, text);
      hide Gives, EvidenceValues;
      if field in found && field in values {
        GivesOne(evidence, field, found[field], values[field], text);
      }
    }
  }

  lemma ComponentsAre(found: map<string, string>)
    ensures FieldComponents(IDENTITY_FIELDS, found) == Components(found)
  {
    hide FieldComponents, Component;
    var fields := IDENTITY_FIELDS;
    NoComponents(found);
    FirstComponent(["protocol"], found);
    assert ["protocol"][1..] == [];
    FirstComponent(["process", "protocol"], found);
    assert ["process", "protocol"][1..] == ["protocol"];
    FirstComponent(["port", "process", "protocol"], found);
    assert ["port", "process", "protocol"][1..] == ["process", "protocol"];
    FirstComponent(fields[1..], found);
    assert fields[1..][1..] == ["port", "process", "protocol"];
    FirstComponent(fields, found);
  }

  lemma NoComponents(found: map<string, string>)
    ensures FieldComponents([], found) == ""
  {
  }

  lemma FirstComponent(fields: seq<string>, found: map<string, string>)
    requires fields != []
    ensures FieldComponents(fields, found) == Component(found, fields[0]) + FieldComponents(fields[1..], found)
  {
  }

  /** A finding keeps the id it comes with, and is otherwise named by its identifying texts. */
  lemma IdIs(f: Finding, found: map<string, string>, text: TextServices)
    requires AreFound(found, f.evidence, text)
    ensures CanonicalId(f, text)
      == match f.findingId
         case None => IdentityText(f, found, text)
         case Some(id) => if id == "" then IdentityText(f, found, text) else id
  {
    FoundAreValues(found, f.evidence, text);
    ComponentsAre(found);
    hide EvidenceValues, FieldComponents, Components, AreFound;
  }

  // ----- which instances are one finding

  /** Two instances of one id that differ in nothing durable. */
  ghost predicate Alike(c: Candidate, d: Candidate, text: TextServices) {
    var f, g := c.finding, d.finding;
    && CanonicalId(f, text) == CanonicalId(g, text)
    && f.source == g.source && f.severity == g.severity && f.kind == g.kind && f.assessment == g.assessment
    && f.title == g.title && f.description == g.description && f.techniqueId == g.techniqueId
    && f.recommendation == g.recommendation && f.confidence == g.confidence
    && WithoutPids(f.evidence, text) == WithoutPids(g.evidence, text)
    && f.networkContext == g.networkContext && f.presentationGroup == g.presentationGroup
    && c.identity == d.identity
  }

  lemma AlikeIsSame(c: Candidate, d: Candidate, text: TextServices)
    ensures DurableSemantics(c, text) == DurableSemantics(d, text) <==> Alike(c, d, text)
  {
    DurableIsWithoutPids(c.finding.evidence, text);
    DurableIsWithoutPids(d.finding.evidence, text);
    hide CanonicalId, DurableEvidence, WithoutPids;
  }

  /** Each of several instances names a process, and no two the same. */
  ghost predicate NamedApart(members: seq<Candidate>) {
    |members| > 1 ==>
      && (forall c :: c in members ==> c.pid != None)
      && forall i, j :: 0 <= i < j < |members| ==> members[i].pid != members[j].pid
  }

  lemma ApartIsDistinct(members: seq<Candidate>)
    ensures DistinctInstances(members) <==> NamedApart(members)
  {
    var pids := PidsOf(members);
    DistinctIffCounted(pids);
    assert Elems(pids) == set p | p in pids;
    assert (forall p :: p in pids ==> p.Some?) <==> forall c :: c in members ==> c.pid != None by {
      forall c | c in members ensures c.pid in pids {
        var i :| 0 <= i < |members| && members[i] == c;
        assert pids[i] == c.pid;
      }
    }
    assert Distinct(pids) <==> forall i, j :: 0 <= i < j < |members| ==> members[i].pid != members[j].pid by {
      if Distinct(pids) {
        forall i, j | 0 <= i < j < |members| ensures members[i].pid != members[j].pid {
          assert pids[i] != pids[j];
        }
      }
    }
  }

  /** The instances a group runs. */
  function Running(members: seq<Candidate>): nat {
    if members == [] then 0 else members[0].finding.count + Running(members[1..])
  }

  lemma {:induction false} RunningIsSum(members: seq<Candidate>)
    ensures SumBy(members, CountOf) == Running(members)
  {
    if members != [] { RunningIsSum(members[1..]); }
  }

  /** A group merges, or fails for the first reason there is. */
  lemma MergesExactlyWhen(members: seq<Candidate>, text: TextServices)
    requires members != []
    ensures var alike := forall c :: c in members ==> Alike(members[0], c, text);
      MergeFailure(members, text)
      == if !alike then Some(ConflictingSemantics)
         else if !NamedApart(members) then Some(NotDistinctInstances)
         else if Running(members) > 65_536 then Some(MultiplicityTooLarge)
         else None
  {
    ApartIsDistinct(members);
    RunningIsSum(members);
    forall c { AlikeIsSame(members[0], c, text); }
    assert members == [members[0]] + members[1..];
    assert Alike(members[0], members[0], text);
    hide Alike, DurableSemantics, NamedApart, DistinctInstances, SumBy, Running;
  }

  // ----- what becomes of the candidates

  /** No candidate of this id stands before position at, and the one there has it. */
  ghost predicate FirstWith(cs: seq<Candidate>, at: nat, id: string, text: TextServices) {
    && at < |cs| && CanonicalId(cs[at].finding, text) == id
    && forall p :: 0 <= p < at ==> CanonicalId(cs[p].finding, text) != id
  }

  /** The instances of an id. */
  function RunningAs(cs: seq<Candidate>, id: string, text: TextServices): nat {
    if cs == [] then 0
    else (if CanonicalId(cs[0].finding, text) == id then cs[0].finding.count else 0) + RunningAs(cs[1..], id, text)
  }

  lemma NothingFiled(key: Candidate -> string, id: string)
    ensures Bucket([], key, id) == []
  {
  }

  lemma {:induction false} RunningInBucket(cs: seq<Candidate>, id: string, text: TextServices)
    ensures SumBy(Bucket(cs, ById(text), id), CountOf) == RunningAs(cs, id, text)
  {
    hide CanonicalId, Bucket;
    if cs == [] {
      NothingFiled(ById(text), id);
    } else {
      assert cs == [cs[0]] + cs[1..];
      BucketTakesInOrder(cs[0], cs[1..], ById(text), id);
      RunningInBucket(cs[1..], id, text);
      OneCount(cs[0]);
      SumByConcat(if CanonicalId(cs[0].finding, text) == id then [cs[0]] else [], Bucket(cs[1..], ById(text), id),
                  CountOf);
    }
  }

  /** The group filed under the id of a first candidate begins with that candidate. */
  lemma {:induction false} BucketStarts(cs: seq<Candidate>, at: nat, id: string, text: TextServices)
    requires FirstWith(cs, at, id, text)
    ensures Bucket(cs, ById(text), id) != [] && Bucket(cs, ById(text), id)[0] == cs[at]
  {
    hide CanonicalId, Bucket;
    assert cs == [cs[0]] + cs[1..];
    BucketTakesInOrder(cs[0], cs[1..], ById(text), id);
    if at > 0 {
      assert CanonicalId(cs[0].finding, text) != id;
      BucketStarts(cs[1..], at - 1, id, text);
    }
  }

  ghost predicate Held(cs: seq<Candidate>, id: string, text: TextServices) {
    exists c :: c in cs && CanonicalId(c.finding, text) == id
  }

  lemma {:induction false} FirstExists(cs: seq<Candidate>, id: string, text: TextServices) returns (at: nat)
    requires Held(cs, id, text)
    ensures FirstWith(cs, at, id, text)
  {
    hide CanonicalId;
    if CanonicalId(cs[0].finding, text) == id {
      at := 0;
    } else {
      assert cs == [cs[0]] + cs[1..];
      at := FirstExists(cs[1..], id, text);
      at := at + 1;
    }
  }

  /** The finding of the first candidate of its id; of several instances it says how many, and no process ids. */
  ghost predicate StandsFor(m: (Finding, NetworkScoringIdentity), cs: seq<Candidate>, at: nat, text: TextServices)
    requires at < |cs|
  {
    var first, running := cs[at], RunningAs(cs, CanonicalId(cs[at].finding, text), text);
    && m.1 == first.identity
    && m.0 == if running <= 1 then first.finding
              else first.finding.(evidence := WithoutPids(first.finding.evidence, text), count := running)
  }

  /** One finding per id, in the order in which the ids are first met. */
  ghost predicate AreCanonical(merged: seq<(Finding, NetworkScoringIdentity)>, firsts: seq<nat>, cs: seq<Candidate>,
                               text: TextServices)
  {
    && |firsts| == |merged|
    && (forall k :: 0 <= k < |firsts| ==> firsts[k] < |cs| && StandsFor(merged[k], cs, firsts[k], text))
    && (forall i, j :: 0 <= i < j < |firsts| ==> firsts[i] < firsts[j])
    && forall at: nat :: at in firsts <==> at < |cs| && FirstWith(cs, at, CanonicalId(cs[at].finding, text), text)
  }

  lemma StandsForGroup(m: (Finding, NetworkScoringIdentity), cs: seq<Candidate>, at: nat, id: string,
                       text: TextServices)
    requires FirstWith(cs, at, id, text)
    requires Bucket(cs, ById(text), id) != [] && m == Merged(Bucket(cs, ById(text), id), text)
    ensures StandsFor(m, cs, at, text)
  {
    BucketStarts(cs, at, id, text);
    RunningInBucket(cs, id, text);
    DurableIsWithoutPids(cs[at].finding.evidence, text);
    hide CanonicalId, Bucket, SumBy, RunningAs, DurableEvidence, WithoutPids;
  }

  /** Successful canonicalisation gives one finding per id, each standing for its instances. */
  lemma CanonicalFindingsAre(merged: seq<(Finding, NetworkScoringIdentity)>, cs: seq<Candidate>, text: TextServices)
    returns (firsts: seq<nat>)
    requires IsMergeOf(merged, cs, text)
    ensures AreCanonical(merged, firsts, cs, text)
  {
    var order := FirstSeen(cs, ById(text));
    firsts := FirstsOf(cs, order, text);
    hide FirstSeen, CanonicalId, Bucket, Merged, MergeFailure, StandsFor;
    forall k | 0 <= k < |firsts| ensures firsts[k] < |cs| && StandsFor(merged[k], cs, firsts[k], text) {
      StandsForGroup(merged[k], cs, firsts[k], order[k], text);
    }
  }

  lemma FirstsOf(cs: seq<Candidate>, order: seq<string>, text: TextServices) returns (firsts: seq<nat>)
    requires order == FirstSeen(cs, ById(text))
    ensures |firsts| == |order| && forall k :: 0 <= k < |order| ==> FirstWith(cs, firsts[k], order[k], text)
    ensures forall i, j :: 0 <= i < j < |firsts| ==> firsts[i] < firsts[j]
    ensures forall at: nat :: at in firsts <==> at < |cs| && FirstWith(cs, at, CanonicalId(cs[at].finding, text), text)
  {
    FirstSeenFacts(cs, ById(text));
    hide FirstSeen, CanonicalId;
    forall id | id in order ensures Held(cs, id, text) {
      var c :| c in cs && ById(text)(c) == id;
    }
    firsts := FirstOfEach(cs, order, text);
    forall i, j | 0 <= i < j < |firsts| ensures firsts[i] < firsts[j] {
      var at := FirstSeenInOrder(cs, ById(text), i, j);
      assert ById(text)(cs[at]) == order[i];
      assert FirstWith(cs, firsts[i], order[i], text) && FirstWith(cs, firsts[j], order[j], text);
    }
    forall at: nat ensures at in firsts <==> at < |cs| && FirstWith(cs, at, CanonicalId(cs[at].finding, text), text) {
      if at < |cs| && FirstWith(cs, at, CanonicalId(cs[at].finding, text), text) {
        assert ById(text)(cs[at]) in order;
        var k :| 0 <= k < |order| && order[k] == CanonicalId(cs[at].finding, text);
        assert FirstWith(cs, firsts[k], order[k], text);
        assert firsts[k] == at;
      }
    }
  }

  lemma {:induction false} FirstOfEach(cs: seq<Candidate>, order: seq<string>, text: TextServices)
    returns (firsts: seq<nat>)
    requires forall id :: id in order ==> Held(cs, id, text)
    ensures |firsts| == |order| && forall k :: 0 <= k < |order| ==> FirstWith(cs, firsts[k], order[k], text)
  {
    hide FirstWith, Held;
    if order == [] {
      firsts := [];
    } else {
      firsts := FirstOfEach(cs, order[1..], text);
      var at := FirstExists(cs, order[0], text);
      firsts := [at] + firsts;
    }
  }
}
