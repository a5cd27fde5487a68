/** What the lifecycle fold promises about every history. */
module LifecycleLaws {
  import opened Common
  import opened Orders
  import opened Lifecycle

  // ----- selecting events

  lemma {:induction false} OfFindingConcat(a: seq<Event>, b: seq<Event>, id: FindingId)
    ensures OfFinding(a + b, id) == OfFinding(a, id) + OfFinding(b, id)
  {
    if b == [] {
      assert a + b == a;
    } else {
      assert (a + b)[..|a + b| - 1] == a + b[..|b| - 1];
      OfFindingConcat(a, b[..|b| - 1], id);
    }
  }

  lemma {:induction false} OfFindingUniform(es: seq<Event>, id: FindingId)
    ensures (forall e :: e in es ==> e.findingId == id) ==> OfFinding(es, id) == es
    ensures (forall e :: e in es ==> e.findingId != id) ==> OfFinding(es, id) == []
  {
    if es != [] {
      assert es == es[..|es| - 1] + [es[|es| - 1]];
      OfFindingUniform(es[..|es| - 1], id);
    }
  }

  lemma {:induction false} InOfFinding(es: seq<Event>, e: Event)
    requires e in es
    ensures e in OfFinding(es, e.findingId)
  {
    assert es == es[..|es| - 1] + [es[|es| - 1]];
    if e != es[|es| - 1] { InOfFinding(es[..|es| - 1], e); }
  }

  lemma {:induction false} StampConcat(a: seq<Event>, b: seq<Event>, r: Report)
    ensures StampAll(a + b, r) == StampAll(a, r) + StampAll(b, r)
  {
    if a == [] {
      assert a + b == b;
    } else {
      assert (a + b)[1..] == a[1..] + b;
      StampConcat(a[1..], b, r);
    }
  }

  lemma {:induction false} StampAt(es: seq<Event>, r: Report)
    ensures |StampAll(es, r)| == |es|
    ensures forall i :: 0 <= i < |es| ==> StampAll(es, r)[i] == StampEvent(es[i], r)
  {
    if es != [] { StampAt(es[1..], r); }
  }

  lemma {:induction false} OfFindingStamped(es: seq<Event>, r: Report, id: FindingId)
    ensures OfFinding(StampAll(es, r), id) == StampAll(OfFinding(es, id), r)
  {
    if es != [] {
      var init, last := es[..|es| - 1], es[|es| - 1];
      assert es == init + [last];
      StampConcat(init, [last], r);
      OfFindingStamped(init, r, id);
      OfFindingConcat(StampAll(init, r), StampAll([last], r), id);
      StampConcat(OfFinding(init, id), if last.findingId == id then [last] else [], r);
      assert StampAll([last], r) == [StampEvent(last, r)];
    }
  }

  // ----- each finding is tracked on its own

  ghost predicate Keyed(states: States) {
    forall id :: id in states ==> states[id].findingId == id
  }

  ghost predicate DistinctOccurrences(occurrences: seq<Occurrence>) {
    forall i, j :: 0 <= i < j < |occurrences| ==> occurrences[i].findingId != occurrences[j].findingId
  }

  lemma {:induction false} FindMeans(occurrences: seq<Occurrence>, id: FindingId)
    ensures Find(occurrences, id).Some? <==> exists o :: o in occurrences && o.findingId == id
    ensures Find(occurrences, id).Some? ==>
      Find(occurrences, id).value in occurrences && Find(occurrences, id).value.findingId == id
  {
    if occurrences != [] {
      var init, last := occurrences[..|occurrences| - 1], occurrences[|occurrences| - 1];
      assert occurrences == init + [last];
      FindMeans(init, id);
    }
  }

  lemma ObserveEventsOf(prior: Option<Summary>, o: Occurrence)
    requires prior.Some? ==> prior.value.findingId == o.findingId
    ensures forall e :: e in ObserveEvents(prior, o) ==> e.findingId == o.findingId
  {
  }

  /** The summary of one finding after an occurrence loop that meets it at most once. */
  function ObservedFor(prior: Option<Summary>, occurrences: seq<Occurrence>, id: FindingId): Option<Summary> {
    var o := Find(occurrences, id);
    if o.Some? then Some(Observe(prior, o.value)) else prior
  }

  lemma {:induction false} ObservedOne(states: States, occurrences: seq<Occurrence>, id: FindingId)
    requires Keyed(states) && DistinctOccurrences(occurrences)
    ensures Keyed(Observed(states, occurrences))
    ensures Get(Observed(states, occurrences), id) == ObservedFor(Get(states, id), occurrences, id)
  {
    if occurrences != [] {
      var init, o := occurrences[..|occurrences| - 1], occurrences[|occurrences| - 1];
      ObservedOne(states, init, id);
      ObservedOne(states, init, o.findingId);
      FindMeans(init, o.findingId);
      assert Find(init, o.findingId).None?;
      assert Get(Observed(states, init), o.findingId) == Get(states, o.findingId);
      hide Find, DistinctOccurrences;
    }
  }

  lemma {:induction false} ObservedEventsOne(states: States, occurrences: seq<Occurrence>, id: FindingId)
    requires Keyed(states) && DistinctOccurrences(occurrences)
    ensures OfFinding(ObservedEvents(states, occurrences), id)
      == if Find(occurrences, id).Some? then ObserveEvents(Get(states, id), Find(occurrences, id).value) else []
  {
    if occurrences != [] {
      var init, o := occurrences[..|occurrences| - 1], occurrences[|occurrences| - 1];
      ObservedEventsOne(states, init, id);
      ObservedOne(states, init, o.findingId);
      FindMeans(init, o.findingId);
      assert Find(init, o.findingId).None?;
      var prior := Get(Observed(states, init), o.findingId);
      assert prior == Get(states, o.findingId);
      ObserveEventsOf(prior, o);
      OfFindingConcat(ObservedEvents(states, init), ObserveEvents(prior, o), id);
      OfFindingUniform(ObserveEvents(prior, o), id);
      hide ObserveEvents, OfFinding, Observed, DistinctOccurrences;
    }
  }

  lemma {:induction false} MissedOne(states: States, ids: seq<FindingId>, r: Report, casefold: string -> string,
                                     id: FindingId)
    requires Keyed(states) && Distinct(ids)
    ensures Keyed(Missed(states, ids, r, casefold)) && Missed(states, ids, r, casefold).Keys == states.Keys
    ensures Get(Missed(states, ids, r, casefold), id)
      == if id in ids && id in states && !Present(r, id) then Some(Miss(states[id], r, casefold)) else Get(states, id)
  {
    hide Present, Proves;
    if ids != [] {
      var init, last := ids[..|ids| - 1], ids[|ids| - 1];
      assert ids == init + [last] && last !in init;
      MissedOne(states, init, r, casefold, id);
      MissedOne(states, init, r, casefold, last);
    }
  }

  lemma MissEventsOf(s: Summary, r: Report, casefold: string -> string)
    ensures forall e :: e in MissEvents(s, r, casefold) ==> e.findingId == s.findingId
  {
    hide Proves;
  }

  lemma {:induction false} MissedEventsOne(states: States, ids: seq<FindingId>, r: Report, casefold: string -> string,
                                           id: FindingId)
    requires Keyed(states) && Distinct(ids)
    ensures OfFinding(MissedEvents(states, ids, r, casefold), id)
      == if id in ids && id in states && !Present(r, id) then MissEvents(states[id], r, casefold) else []
  {
    hide Present, Proves, Missed, MissEvents, OfFinding;
    if ids != [] {
      var init, last := ids[..|ids| - 1], ids[|ids| - 1];
      assert ids == init + [last] && last !in init;
      MissedEventsOne(states, init, r, casefold, id);
      MissedOne(states, init, r, casefold, last);
      var before := Missed(states, init, r, casefold);
      assert Get(before, last) == Get(states, last);
      var added := if last in before && !Present(r, last) then MissEvents(before[last], r, casefold) else [];
      assert MissedEvents(states, ids, r, casefold) == MissedEvents(states, init, r, casefold) + added;
      if last in states { MissEventsOf(states[last], r, casefold); }
      OfFindingConcat(MissedEvents(states, init, r, casefold), added, id);
      OfFindingUniform(added, id);
      hide MissedEvents;
    } else {
      OfFindingUniform([], id);
    }
  }

  lemma SortedIdsListAll(states: States)
    ensures Distinct(SortedIds(states)) && forall id :: id in SortedIds(states) <==> id in states
  {
    StrLeIsTotal();
    ListingFacts(states.Keys, StrLe);
  }

  lemma PresentIffFound(r: Report, id: FindingId)
    ensures Present(r, id) <==> Find(r.occurrences, id).Some?
  {
    FindMeans(r.occurrences, id);
    hide Find;
  }

  lemma WellFormedOccurrences(r: Report)
    requires WellFormedReport(r)
    ensures DistinctOccurrences(r.occurrences)
  {
  }

  lemma StepStatesOne(states: States, r: Report, casefold: string -> string, id: FindingId)
    requires Keyed(states) && WellFormedReport(r)
    ensures Keyed(StepStates(states, r, casefold))
    ensures Get(StepStates(states, r, casefold), id) == TrackStep(Get(states, id), r, id, casefold)
  {
    WellFormedOccurrences(r);
    hide Observe, Miss, Find, Observed, Missed, SortedIds, Keyed, DistinctOccurrences, Present, WellFormedReport;
    var seen := Observed(states, r.occurrences);
    ObservedOne(states, r.occurrences, id);
    SortedIdsListAll(seen);
    MissedOne(seen, SortedIds(seen), r, casefold, id);
    PresentIffFound(r, id);
  }

  lemma StepEventsOne(states: States, r: Report, casefold: string -> string, id: FindingId)
    requires Keyed(states) && WellFormedReport(r)
    ensures OfFinding(StepEvents(states, r, casefold), id) == TrackStepEvents(Get(states, id), r, id, casefold)
  {
    WellFormedOccurrences(r);
    hide Observe, ObserveEvents, MissEvents, Find, OfFinding, Observed, ObservedEvents, MissedEvents, SortedIds, Keyed,
      DistinctOccurrences, Present, WellFormedReport;
    var seen := Observed(states, r.occurrences);
    ObservedOne(states, r.occurrences, id);
    ObservedEventsOne(states, r.occurrences, id);
    SortedIdsListAll(seen);
    MissedEventsOne(seen, SortedIds(seen), r, casefold, id);
    PresentIffFound(r, id);
    OfFindingConcat(ObservedEvents(states, r.occurrences), MissedEvents(seen, SortedIds(seen), r, casefold), id);
  }

  ghost predicate WellFormedReports(h: History) {
    forall i :: 0 <= i < |h| ==> WellFormedReport(h[i])
  }

  /** The fold over all findings is the per-finding fold, for states and for events. */
  lemma {:induction false} FindingsAreIndependent(h: History, casefold: string -> string, id: FindingId)
    requires WellFormedReports(h)
    ensures Keyed(StatesAfter(h, casefold))
    ensures Get(StatesAfter(h, casefold), id) == Track(h, id, casefold)
    ensures OfFinding(EventsAfter(h, casefold), id) == TrackEvents(h, id, casefold)
  {
    if h != [] {
      var init, r := h[..|h| - 1], h[|h| - 1];
      assert WellFormedReport(r);
      hide WellFormedReport;
      FindingsAreIndependent(init, casefold, id);
      var states := StatesAfter(init, casefold);
      StepStatesOne(states, r, casefold, id);
      StepEventsOne(states, r, casefold, id);
      OfFindingConcat(EventsAfter(init, casefold), StampAll(StepEvents(states, r, casefold), r), id);
      OfFindingStamped(StepEvents(states, r, casefold), r, id);
      hide StepStates, StepEvents, TrackStep, TrackStepEvents, StampAll, OfFinding;
    }
  }

  // ----- closed form

  predicate InReport(r: Report, id: FindingId) {
    Find(r.occurrences, id).Some?
  }

  /** Position of the last report holding the finding, or -1. */
  function LastIn(h: History, id: FindingId): (k: int)
    ensures -1 <= k < |h|
    ensures k >= 0 ==> InReport(h[k], id)
    ensures forall i :: k < i < |h| ==> !InReport(h[i], id)
  {
    if h == [] then -1
    else if InReport(h[|h| - 1], id) then |h| - 1
    else
      var k := LastIn(h[..|h| - 1], id);
      assert forall i :: 0 <= i < |h| - 1 ==> h[..|h| - 1][i] == h[i];
      k
  }

  /** Position of the first report holding the finding, or -1. */
  function FirstIn(h: History, id: FindingId): (k: int)
    ensures -1 <= k < |h|
    ensures k >= 0 ==> InReport(h[k], id)
    ensures forall i :: 0 <= i < |h| && (i < k || k < 0) ==> !InReport(h[i], id)
  {
    if h == [] then -1
    else
      var k := FirstIn(h[..|h| - 1], id);
      assert forall i :: 0 <= i < |h| - 1 ==> h[..|h| - 1][i] == h[i];
      if k >= 0 then k else if InReport(h[|h| - 1], id) then |h| - 1 else -1
  }

  function CountIn(h: History, id: FindingId): nat {
    if h == [] then 0 else CountIn(h[..|h| - 1], id) + if InReport(h[|h| - 1], id) then 1 else 0
  }

  /** Some report after position k proves absence for the source. */
  ghost predicate ProvedAfter(h: History, k: int, source: string, casefold: string -> string) {
    exists i :: 0 <= i < |h| && k < i && Proves(source, h[i], casefold)
  }

  ghost function OccurrenceAt(h: History, k: int, id: FindingId): Occurrence
    requires 0 <= k < |h| && InReport(h[k], id)
  {
    Find(h[k].occurrences, id).value
  }

  lemma ProofExtends(h: History, k: int, source: string, casefold: string -> string)
    requires h != [] && k < |h| - 1
    ensures ProvedAfter(h, k, source, casefold)
      <==> ProvedAfter(h[..|h| - 1], k, source, casefold) || Proves(source, h[|h| - 1], casefold)
  {
    hide Proves;
    var init := h[..|h| - 1];
    if ProvedAfter(init, k, source, casefold) {
      var i :| 0 <= i < |init| && k < i && Proves(source, init[i], casefold);
      assert h[i] == init[i];
    }
    if ProvedAfter(h, k, source, casefold) {
      var i :| 0 <= i < |h| && k < i && Proves(source, h[i], casefold);
      assert i < |h| - 1 ==> init[i] == h[i];
    }
  }

  /**
   * Active iff in the last report; resolved iff absent from it and some report since the
   * last occurrence has complete coverage for that occurrence's source; else uncertain.
   */
  lemma {:induction false} LifecycleClosedForm(h: History, id: FindingId, casefold: string -> string)
    ensures Track(h, id, casefold).None? <==> LastIn(h, id) < 0
    ensures LastIn(h, id) < 0 <==> FirstIn(h, id) < 0
    ensures LastIn(h, id) < 0 ==> CountIn(h, id) == 0
    ensures LastIn(h, id) >= 0 ==>
      var s := Track(h, id, casefold).value;
      var first := OccurrenceAt(h, FirstIn(h, id), id);
      var last := OccurrenceAt(h, LastIn(h, id), id);
      && s.firstSeen == first.observedAt && s.lastSeen == last.observedAt
      && s.count == CountIn(h, id)
      && s.title == last.title && s.severity == last.severity && s.kind == last.kind
      && s.assessment == last.assessment && s.source == last.source && s.inferred == last.inferred
      && s.state == (if LastIn(h, id) == |h| - 1 then Active
                     else if ProvedAfter(h, LastIn(h, id), last.source, casefold) then Resolved
                     else ResolutionUncertain)
  {
    hide Proves, Find;
    if h != [] {
      var init, r := h[..|h| - 1], h[|h| - 1];
      LifecycleClosedForm(init, id, casefold);
      assert forall i :: 0 <= i < |init| ==> init[i] == h[i];
      if !InReport(r, id) && LastIn(init, id) >= 0 {
        var k := LastIn(init, id);
        ProofExtends(h, k, OccurrenceAt(h, k, id).source, casefold);
        hide ProvedAfter;
      } else {
        hide ProvedAfter;
      }
    }
  }

  /** First and last seen bound the times of all reports holding the finding. */
  lemma SeenTimesAreExtremes(h: History, id: FindingId, casefold: string -> string, k: nat)
    requires WellFormed(h) && k < |h| && InReport(h[k], id)
    ensures Track(h, id, casefold).Some?
    ensures Track(h, id, casefold).value.firstSeen <= h[k].generatedAt <= Track(h, id, casefold).value.lastSeen
    ensures exists i :: 0 <= i < |h| && InReport(h[i], id) && h[i].generatedAt == Track(h, id, casefold).value.firstSeen
    ensures exists i :: 0 <= i < |h| && InReport(h[i], id) && h[i].generatedAt == Track(h, id, casefold).value.lastSeen
  {
    hide Track, ProvedAfter, Find, FirstIn, LastIn, WellFormedReport;
    LifecycleClosedForm(h, id, casefold);
    var i, j := FirstIn(h, id), LastIn(h, id);
    OccurrenceTime(h, i, id);
    OccurrenceTime(h, j, id);
    assert i <= k <= j;
  }

  lemma OccurrenceTime(h: History, k: nat, id: FindingId)
    requires k < |h| && WellFormedReport(h[k]) && InReport(h[k], id)
    ensures OccurrenceAt(h, k, id).observedAt == h[k].generatedAt
  {
    FindMeans(h[k].occurrences, id);
  }

  // ----- resolution and reopening

  predicate IsResolution(e: Event) {
    e.kind == ResolvedEvent || e.kind == Reopened
  }

  function Resolutions(es: seq<Event>): seq<Event> {
    if es == [] then []
    else Resolutions(es[..|es| - 1]) + (if IsResolution(es[|es| - 1]) then [es[|es| - 1]] else [])
  }

  function CountKind(es: seq<Event>, kind: EventType): nat {
    if es == [] then 0 else CountKind(es[..|es| - 1], kind) + if es[|es| - 1].kind == kind then 1 else 0
  }

  /** RESOLVED, REOPENED, RESOLVED, ... */
  ghost predicate Alternates(es: seq<Event>) {
    forall i :: 0 <= i < |es| ==> es[i].kind == if i % 2 == 0 then ResolvedEvent else Reopened
  }

  function LastResolvedAt(es: seq<Event>): Option<int> {
    if es == [] then None
    else
      var last := es[|es| - 1];
      if last.kind == ResolvedEvent && last.stamp.Stamped? then Some(last.stamp.occurredAt)
      else LastResolvedAt(es[..|es| - 1])
  }

  lemma {:induction false} ResolutionsConcat(a: seq<Event>, b: seq<Event>)
    ensures Resolutions(a + b) == Resolutions(a) + Resolutions(b)
  {
    if b == [] {
      assert a + b == a;
    } else {
      assert (a + b)[..|a + b| - 1] == a + b[..|b| - 1];
      ResolutionsConcat(a, b[..|b| - 1]);
    }
  }

  lemma {:induction false} CountKindConcat(a: seq<Event>, b: seq<Event>, kind: EventType)
    ensures CountKind(a + b, kind) == CountKind(a, kind) + CountKind(b, kind)
  {
    if b == [] {
      assert a + b == a;
    } else {
      assert (a + b)[..|a + b| - 1] == a + b[..|b| - 1];
      CountKindConcat(a, b[..|b| - 1], kind);
    }
  }

  lemma {:induction false} LastResolvedConcat(a: seq<Event>, b: seq<Event>)
    ensures LastResolvedAt(a + b) == if LastResolvedAt(b).Some? then LastResolvedAt(b) else LastResolvedAt(a)
  {
    if b == [] {
      assert a + b == a;
    } else {
      assert (a + b)[..|a + b| - 1] == a + b[..|b| - 1];
      LastResolvedConcat(a, b[..|b| - 1]);
    }
  }

  lemma MissResolutions(s: Summary, r: Report, casefold: string -> string)
    ensures var es := StampAll(MissEvents(s, r, casefold), r);
      var resolves := s.state != Resolved && Proves(s.source, r, casefold);
      && (if resolves then |Resolutions(es)| == 1 && Resolutions(es)[0].kind == ResolvedEvent
          else Resolutions(es) == [])
      && LastResolvedAt(es) == (if resolves then Some(r.generatedAt) else None)
      && (Miss(s, r, casefold).state == Resolved <==> resolves || s.state == Resolved)
  {
    hide Proves;
    if s.state != Resolved && Proves(s.source, r, casefold) {
      var e := Event(s.findingId, ResolvedEvent, OfState(s.state), OfState(Resolved), Unstamped);
      assert MissEvents(s, r, casefold) == [e];
      assert StampAll([e], r) == [StampEvent(e, r)];
      assert Resolutions([StampEvent(e, r)]) == [StampEvent(e, r)];
    }
  }

  /** One step adds at most one resolution event, exactly when the resolved state changes. */
  lemma StepResolutions(prior: Option<Summary>, r: Report, id: FindingId, casefold: string -> string)
    ensures var es := StampAll(TrackStepEvents(prior, r, id, casefold), r);
      var next := TrackStep(prior, r, id, casefold);
      var was := prior.Some? && prior.value.state == Resolved;
      var isNow := next.Some? && next.value.state == Resolved;
      && (if was == isNow then Resolutions(es) == []
          else |Resolutions(es)| == 1 && Resolutions(es)[0].kind == if isNow then ResolvedEvent else Reopened)
      && LastResolvedAt(es) == (if isNow && !was then Some(r.generatedAt) else None)
  {
    var o := Find(r.occurrences, id);
    if o.Some? {
      assert Observe(prior, o.value).state == Active;
      ChangesAreNoResolutions(prior, o.value, r);
    } else if prior.Some? {
      MissResolutions(prior.value, r, casefold);
    }
    hide Proves, Find, Observe, ObserveEvents, Miss, MissEvents;
    if o.None? && prior.None? {
      assert StampAll([], r) == [];
    } else {
      hide Resolutions, LastResolvedAt, StampAll;
    }
  }

  lemma {:induction false} NoResolutions(es: seq<Event>)
    requires forall e :: e in es ==> !IsResolution(e)
    ensures Resolutions(es) == [] && LastResolvedAt(es) == None
  {
    if es != [] {
      assert es == es[..|es| - 1] + [es[|es| - 1]];
      NoResolutions(es[..|es| - 1]);
    }
  }

  /** An occurrence is booked as one sighting, followed by changes only. */
  lemma SightingThenChanges(prior: Option<Summary>, o: Occurrence) returns (head: Event, rest: seq<Event>)
    ensures ObserveEvents(prior, o) == [head] + rest
    ensures head.kind == if prior.None? then FirstSeen else if prior.value.state == Resolved then Reopened else Seen
    ensures forall e :: e in rest ==> IsChange(e.kind)
  {
    match prior
    case None =>
      head, rest := Event(o.findingId, FirstSeen, NoValue, NoValue, Unstamped), [];
    case Some(s) =>
      head := SeenAgain(s)[0];
      var a := Change(s.findingId, SeverityChanged, OfSeverity(s.severity), OfSeverity(o.severity));
      var b := Change(s.findingId, AssessmentStateChanged, OfAssessment(s.assessment), OfAssessment(o.assessment));
      var c := Change(s.findingId, KindChanged, OfKind(s.kind), OfKind(o.kind));
      rest := a + b + c;
      assert ObserveEvents(prior, o) == [head] + rest by { hide Change; }
  }

  lemma SingleResolution(e: Event)
    ensures Resolutions([e]) == if IsResolution(e) then [e] else []
    ensures LastResolvedAt([e]) ==
      if e.kind == ResolvedEvent && e.stamp.Stamped? then Some(e.stamp.occurredAt) else None
  {
    assert [e][..0] == [];
  }

  lemma ChangesAreNoResolutions(prior: Option<Summary>, o: Occurrence, r: Report)
    ensures var es := StampAll(ObserveEvents(prior, o), r);
      && (if prior.Some? && prior.value.state == Resolved
          then |Resolutions(es)| == 1 && Resolutions(es)[0].kind == Reopened
          else Resolutions(es) == [])
      && LastResolvedAt(es) == None
  {
    hide ObserveEvents, Resolutions, LastResolvedAt, StampAll;
    var head, rest := SightingThenChanges(prior, o);
    StampConcat([head], rest, r);
    StampAt(rest, r);
    StampAt([head], r);
    assert StampAll([head], r) == [StampEvent(head, r)];
    forall e | e in StampAll(rest, r) ensures !IsResolution(e) {
      var i :| 0 <= i < |rest| && StampAll(rest, r)[i] == e;
      assert rest[i] in rest;
    }
    NoResolutions(StampAll(rest, r));
    SingleResolution(StampEvent(head, r));
    ResolutionsConcat([StampEvent(head, r)], StampAll(rest, r));
    LastResolvedConcat([StampEvent(head, r)], StampAll(rest, r));
  }

  lemma {:induction false} CountsOfAlternating(es: seq<Event>)
    requires Alternates(es)
    ensures CountKind(es, ResolvedEvent) == (|es| + 1) / 2
    ensures CountKind(es, Reopened) == |es| / 2
  {
    if es != [] { CountsOfAlternating(es[..|es| - 1]); }
  }

  lemma {:induction false} ResolutionsCount(es: seq<Event>)
    ensures CountKind(es, ResolvedEvent) == CountKind(Resolutions(es), ResolvedEvent)
    ensures CountKind(es, Reopened) == CountKind(Resolutions(es), Reopened)
  {
    if es != [] {
      var init, last := es[..|es| - 1], es[|es| - 1];
      ResolutionsCount(init);
      CountKindConcat(Resolutions(init), if IsResolution(last) then [last] else [], ResolvedEvent);
      CountKindConcat(Resolutions(init), if IsResolution(last) then [last] else [], Reopened);
    }
  }

  ghost predicate ResolutionsMatch(rs: seq<Event>, lastResolved: Option<int>, t: Option<Summary>) {
    && Alternates(rs)
    && (|rs| % 2 == 1 <==> t.Some? && t.value.state == Resolved)
    && (t.Some? ==> t.value.reopened == |rs| / 2 && t.value.lastResolved == lastResolved)
    && (t.None? ==> rs == [] && lastResolved == None)
  }

  lemma StepSummary(prior: Option<Summary>, r: Report, id: FindingId, casefold: string -> string)
    ensures var next := TrackStep(prior, r, id, casefold);
      var was := prior.Some? && prior.value.state == Resolved;
      && (next.Some? && next.value.state == Resolved && !was ==>
            && prior.Some? && next.value.reopened == prior.value.reopened
            && next.value.lastResolved == Some(r.generatedAt))
      && (was && next.Some? && next.value.state != Resolved ==>
            next.value.reopened == prior.value.reopened + 1 && next.value.lastResolved == prior.value.lastResolved)
      && (next.Some? && was == (next.value.state == Resolved) ==>
            next.value.reopened == (if prior.Some? then prior.value.reopened else 0)
            && next.value.lastResolved == (if prior.Some? then prior.value.lastResolved else None))
      && (prior.Some? ==> next.Some?)
  {
    hide Proves, Find;
  }

  /** What one step adds keeps the resolutions in agreement with the summary. */
  lemma MatchStep(rs: seq<Event>, last: Option<int>, prior: Option<Summary>, added: seq<Event>, at: Option<int>,
                  next: Option<Summary>)
    requires ResolutionsMatch(rs, last, prior) && (prior.Some? ==> next.Some?)
    requires var was := prior.Some? && prior.value.state == Resolved;
      var isNow := next.Some? && next.value.state == Resolved;
      && (was == isNow ==> added == [] && at == None)
      && (was != isNow ==> |added| == 1 && added[0].kind == (if isNow then ResolvedEvent else Reopened))
      && (isNow && !was ==> at.Some? && prior.Some? && next.value.reopened == prior.value.reopened
                            && next.value.lastResolved == at)
      && (was && !isNow ==> at == None && next.value.reopened == prior.value.reopened + 1
                            && next.value.lastResolved == prior.value.lastResolved)
      && (was == isNow && next.Some? ==>
            next.value.reopened == (if prior.Some? then prior.value.reopened else 0)
            && next.value.lastResolved == (if prior.Some? then prior.value.lastResolved else None))
    ensures ResolutionsMatch(rs + added, if at.Some? then at else last, next)
  {
  }

  lemma {:induction false} ResolutionRun(h: History, id: FindingId, casefold: string -> string)
    ensures ResolutionsMatch(Resolutions(TrackEvents(h, id, casefold)), LastResolvedAt(TrackEvents(h, id, casefold)),
                             Track(h, id, casefold))
  {
    if h != [] {
      var init, r := h[..|h| - 1], h[|h| - 1];
      var prior := Track(init, id, casefold);
      ResolutionRun(init, id, casefold);
      StepResolutions(prior, r, id, casefold);
      StepSummary(prior, r, id, casefold);
      var added := StampAll(TrackStepEvents(prior, r, id, casefold), r);
      ResolutionsConcat(TrackEvents(init, id, casefold), added);
      LastResolvedConcat(TrackEvents(init, id, casefold), added);
      hide Resolutions, LastResolvedAt, StampAll, TrackStepEvents, TrackStep, ResolutionsMatch;
      MatchStep(Resolutions(TrackEvents(init, id, casefold)), LastResolvedAt(TrackEvents(init, id, casefold)), prior,
                Resolutions(added), LastResolvedAt(added), TrackStep(prior, r, id, casefold));
    }
  }

  /**
   * Over every run RESOLVED and REOPENED alternate, starting with RESOLVED; their counts
   * differ by one exactly when the finding is resolved; the summary counts the reopenings
   * and remembers the last resolution.
   */
  lemma ResolutionAlgebra(h: History, id: FindingId, casefold: string -> string)
    ensures Alternates(Resolutions(TrackEvents(h, id, casefold)))
    ensures CountKind(TrackEvents(h, id, casefold), ResolvedEvent) - CountKind(TrackEvents(h, id, casefold), Reopened)
      == if Track(h, id, casefold).Some? && Track(h, id, casefold).value.state == Resolved then 1 else 0
    ensures Track(h, id, casefold).Some? ==>
      && Track(h, id, casefold).value.reopened == CountKind(TrackEvents(h, id, casefold), Reopened)
      && Track(h, id, casefold).value.lastResolved == LastResolvedAt(TrackEvents(h, id, casefold))
  {
    ResolutionRun(h, id, casefold);
    var es := TrackEvents(h, id, casefold);
    ResolutionsCount(es);
    CountsOfAlternating(Resolutions(es));
    hide Track, TrackEvents, Alternates, CountKind, Resolutions;
  }

  // ----- chains of changes

  function Changes(es: seq<Event>, kind: EventType): seq<Event> {
    if es == [] then []
    else Changes(es[..|es| - 1], kind) + (if es[|es| - 1].kind == kind then [es[|es| - 1]] else [])
  }

  /** Each change starts where the one before ended, from start to end, and changes something. */
  ghost predicate Linked(start: EventValue, cs: seq<Event>, end: EventValue) {
    if cs == [] then start == end
    else
      var last := cs[|cs| - 1];
      last.current == end && last.previous != last.current && Linked(start, cs[..|cs| - 1], last.previous)
  }

  lemma {:induction false} ChangesConcat(a: seq<Event>, b: seq<Event>, kind: EventType)
    ensures Changes(a + b, kind) == Changes(a, kind) + Changes(b, kind)
  {
    if b == [] {
      assert a + b == a;
    } else {
      assert (a + b)[..|a + b| - 1] == a + b[..|b| - 1];
      ChangesConcat(a, b[..|b| - 1], kind);
    }
  }

  predicate IsChange(kind: EventType) {
    kind == SeverityChanged || kind == AssessmentStateChanged || kind == KindChanged
  }

  function Aspect(s: Summary, kind: EventType): EventValue
    requires IsChange(kind)
  {
    match kind
    case SeverityChanged => OfSeverity(s.severity)
    case AssessmentStateChanged => OfAssessment(s.assessment)
    case KindChanged => OfKind(s.kind)
  }

  function OccurrenceAspect(o: Occurrence, kind: EventType): EventValue
    requires IsChange(kind)
  {
    match kind
    case SeverityChanged => OfSeverity(o.severity)
    case AssessmentStateChanged => OfAssessment(o.assessment)
    case KindChanged => OfKind(o.kind)
  }

  lemma SingleChange(e: Event, kind: EventType)
    ensures Changes([e], kind) == if e.kind == kind then [e] else []
  {
    assert [e][..0] == [];
  }

  lemma ChangeOf(id: FindingId, k: EventType, previous: EventValue, current: EventValue, r: Report, kind: EventType)
    ensures Changes(StampAll(Change(id, k, previous, current), r), kind)
      == if k == kind && previous != current
         then [Event(id, k, previous, current, Stamped(r.reportId, r.generatedAt))] else []
  {
    if previous != current {
      var e := Event(id, k, previous, current, Unstamped);
      assert StampAll([e], r) == [StampEvent(e, r)];
      SingleChange(StampEvent(e, r), kind);
    }
  }

  /** Selecting after stamping goes through concatenation. */
  lemma StampedChangesConcat(a: seq<Event>, b: seq<Event>, r: Report, kind: EventType)
    ensures Changes(StampAll(a + b, r), kind) == Changes(StampAll(a, r), kind) + Changes(StampAll(b, r), kind)
  {
    StampConcat(a, b, r);
    ChangesConcat(StampAll(a, r), StampAll(b, r), kind);
  }

  lemma StampedChangesOfFour(w: seq<Event>, a: seq<Event>, b: seq<Event>, c: seq<Event>, r: Report, kind: EventType)
    ensures Changes(StampAll(w + a + b + c, r), kind)
      == Changes(StampAll(w, r), kind) + Changes(StampAll(a, r), kind) + Changes(StampAll(b, r), kind)
         + Changes(StampAll(c, r), kind)
  {
    hide StampAll, Changes;
    StampedChangesConcat(w, a, r, kind);
    StampedChangesConcat(w + a, b, r, kind);
    StampedChangesConcat(w + a + b, c, r, kind);
  }

  lemma HeadIsNoChange(s: Summary, r: Report, kind: EventType)
    requires IsChange(kind)
    ensures Changes(StampAll(SeenAgain(s), r), kind) == []
  {
    var head := SeenAgain(s)[0];
    assert StampAll([head], r) == [StampEvent(head, r)];
    SingleChange(StampEvent(head, r), kind);
  }

  function SeenAgain(s: Summary): seq<Event> {
    [Event(s.findingId, if s.state == Resolved then Reopened else Seen, NoValue, NoValue, Unstamped)]
  }

  lemma ObserveChanges(s: Summary, o: Occurrence, r: Report, kind: EventType)
    requires IsChange(kind)
    ensures Changes(StampAll(ObserveEvents(Some(s), o), r), kind)
      == if Aspect(s, kind) == OccurrenceAspect(o, kind) then []
         else [Event(s.findingId, kind, Aspect(s, kind), OccurrenceAspect(o, kind), Stamped(r.reportId, r.generatedAt))]
  {
    var a := Change(s.findingId, SeverityChanged, OfSeverity(s.severity), OfSeverity(o.severity));
    var b := Change(s.findingId, AssessmentStateChanged, OfAssessment(s.assessment), OfAssessment(o.assessment));
    var c := Change(s.findingId, KindChanged, OfKind(s.kind), OfKind(o.kind));
    assert ObserveEvents(Some(s), o) == SeenAgain(s) + a + b + c by { hide StampAll, Changes, Change; }
    hide ObserveEvents, StampAll, Changes, SeenAgain, Change;
    HeadIsNoChange(s, r, kind);
    ChangeOf(s.findingId, SeverityChanged, OfSeverity(s.severity), OfSeverity(o.severity), r, kind);
    ChangeOf(s.findingId, AssessmentStateChanged, OfAssessment(s.assessment), OfAssessment(o.assessment), r, kind);
    ChangeOf(s.findingId, KindChanged, OfKind(s.kind), OfKind(o.kind), r, kind);
    StampedChangesOfFour(SeenAgain(s), a, b, c, r, kind);
  }

  lemma FirstObservation(o: Occurrence, r: Report, kind: EventType)
    requires IsChange(kind)
    ensures Changes(StampAll(ObserveEvents(None, o), r), kind) == []
  {
    var e := Event(o.findingId, FirstSeen, NoValue, NoValue, Unstamped);
    assert StampAll([e], r) == [StampEvent(e, r)];
    SingleChange(StampEvent(e, r), kind);
  }

  lemma MissChanges(s: Summary, r: Report, casefold: string -> string, kind: EventType)
    requires IsChange(kind)
    ensures Changes(StampAll(MissEvents(s, r, casefold), r), kind) == []
    ensures Aspect(Miss(s, r, casefold), kind) == Aspect(s, kind)
  {
    hide Proves;
    var e := Event(s.findingId, ResolvedEvent, OfState(s.state), OfState(Resolved), Unstamped);
    assert StampAll([e], r) == [StampEvent(e, r)];
    SingleChange(StampEvent(e, r), kind);
  }

  ghost predicate OneChange(added: seq<Event>, before: EventValue, after: EventValue) {
    if before == after then added == []
    else |added| == 1 && added[0].previous == before && added[0].current == after
  }

  /** One step adds at most one change of a kind, from the value before to the value after. */
  lemma StepChanges(prior: Option<Summary>, r: Report, id: FindingId, casefold: string -> string, kind: EventType)
    requires IsChange(kind)
    ensures var added := Changes(StampAll(TrackStepEvents(prior, r, id, casefold), r), kind);
      var next := TrackStep(prior, r, id, casefold);
      && (prior.None? ==> added == [])
      && (prior.None? && next.Some? ==>
            InReport(r, id) && Aspect(next.value, kind) == OccurrenceAspect(Find(r.occurrences, id).value, kind))
      && (prior.Some? ==>
            next.Some? && OneChange(added, Aspect(prior.value, kind), Aspect(next.value, kind)))
  {
    hide Proves, Find;
    var o := Find(r.occurrences, id);
    if o.Some? {
      if prior.Some? { ObserveChanges(prior.value, o.value, r, kind); } else { FirstObservation(o.value, r, kind); }
    } else if prior.Some? {
      MissChanges(prior.value, r, casefold, kind);
    }
    hide ObserveEvents, StampAll, MissEvents, Changes;
  }

  lemma LinkStep(start: EventValue, cs: seq<Event>, added: seq<Event>, before: EventValue, after: EventValue)
    requires Linked(start, cs, before) && OneChange(added, before, after)
    ensures Linked(start, cs + added, after)
  {
    if before == after {
      assert cs + added == cs;
    } else {
      assert (cs + added)[..|cs|] == cs;
    }
  }

  lemma TrackedIffFound(h: History, id: FindingId, casefold: string -> string)
    ensures FirstIn(h, id) < 0 <==> Track(h, id, casefold).None?
  {
    LifecycleClosedForm(h, id, casefold);
  }

  lemma FirstInStep(h: History, id: FindingId)
    requires h != []
    ensures FirstIn(h[..|h| - 1], id) >= 0 ==>
      FirstIn(h, id) == FirstIn(h[..|h| - 1], id) && h[..|h| - 1][FirstIn(h, id)] == h[FirstIn(h, id)]
    ensures FirstIn(h[..|h| - 1], id) < 0 && FirstIn(h, id) >= 0 ==> FirstIn(h, id) == |h| - 1
  {
  }

  /** Severity, state and kind changes lead from the first occurrence's value to the current one. */
  lemma {:induction false} ChangeChain(h: History, id: FindingId, casefold: string -> string, kind: EventType)
    requires IsChange(kind)
    ensures FirstIn(h, id) < 0 <==> Track(h, id, casefold).None?
    ensures FirstIn(h, id) < 0 ==> Changes(TrackEvents(h, id, casefold), kind) == []
    ensures FirstIn(h, id) >= 0 ==>
      Linked(OccurrenceAspect(OccurrenceAt(h, FirstIn(h, id), id), kind),
             Changes(TrackEvents(h, id, casefold), kind),
             Aspect(Track(h, id, casefold).value, kind))
  {
    TrackedIffFound(h, id, casefold);
    hide TrackStep, TrackStepEvents, StampAll, Changes, Find, Aspect, OccurrenceAspect, FirstIn, OneChange, Linked;
    if h != [] {
      var init, r := h[..|h| - 1], h[|h| - 1];
      var prior := Track(init, id, casefold);
      ChangeChain(init, id, casefold, kind);
      StepChanges(prior, r, id, casefold, kind);
      var before := Changes(TrackEvents(init, id, casefold), kind);
      var added := StampAll(TrackStepEvents(prior, r, id, casefold), r);
      ChangesConcat(TrackEvents(init, id, casefold), added, kind);
      FirstInStep(h, id);
      if prior.Some? {
        LinkStep(OccurrenceAspect(OccurrenceAt(h, FirstIn(h, id), id), kind), before, Changes(added, kind),
                 Aspect(prior.value, kind), Aspect(TrackStep(prior, r, id, casefold).value, kind));
      } else if FirstIn(h, id) >= 0 {
        LinkedRefl(Aspect(Track(h, id, casefold).value, kind));
      }
    } else {
      NoChanges(kind);
    }
  }

  lemma NoChanges(kind: EventType)
    ensures Changes([], kind) == []
  {
  }

  lemma LinkedRefl(v: EventValue)
    ensures Linked(v, [], v)
  {
  }
}
