/** The lifecycle derivation as it runs: mutable finding states and an event list stamped afterwards. */
module LifecycleEngine {
  import opened Common
  import opened Orders
  import opened Vocabulary
  import opened Lifecycle
  import opened LifecycleLaws

  class FindingState {
    const findingId: FindingId
    var firstSeen: int
    var lastSeen: int
    var count: nat
    var state: LifecycleState
    var reopened: nat
    var lastResolved: Option<int>
    var title: string
    var severity: Severity
    var kind: FindingKind
    var assessment: AssessmentState
    var source: string
    var inferred: bool

    function View(): Summary
      reads this
    {
      Summary(findingId, firstSeen, lastSeen, count, state, reopened, lastResolved, title, severity, kind,
              assessment, source, inferred)
    }

    constructor (o: Occurrence)
      ensures View() == Observe(None, o)
    {
      findingId := o.findingId;
      firstSeen, lastSeen, count := o.observedAt, o.observedAt, 1;
      state, reopened, lastResolved := Active, 0, None;
      title, severity, kind, assessment := o.title, o.severity, o.kind, o.assessment;
      source, inferred := o.source, o.inferred;
    }

    method Refresh(o: Occurrence)
      modifies this
      ensures View() == old(View()).(
        lastSeen := o.observedAt, count := old(count) + 1, state := Active, title := o.title, severity := o.severity,
        kind := o.kind, assessment := o.assessment, source := o.source, inferred := o.inferred)
    {
      lastSeen := o.observedAt;
      count := count + 1;
      state := Active;
      title, severity, kind := o.title, o.severity, o.kind;
      assessment, source, inferred := o.assessment, o.source, o.inferred;
    }
  }

  /** An event under construction: it holds the state object itself, not a copy. */
  datatype Draft =
    Draft(state: FindingState, kind: EventType, previous: EventValue, current: EventValue, stamp: Stamp)

  function AsEvent(d: Draft): Event {
    Event(d.state.findingId, d.kind, d.previous, d.current, d.stamp)
  }

  function AsEvents(ds: seq<Draft>): seq<Event> {
    seq(|ds|, i requires 0 <= i < |ds| => AsEvent(ds[i]))
  }

  /** The state objects hold exactly the summaries of the specification. */
  ghost predicate Represents(states: map<FindingId, FindingState>, spec: States)
    reads states.Values
  {
    && states.Keys == spec.Keys
    && forall id :: id in states ==> states[id].findingId == id && states[id].View() == spec[id]
  }

  // ----- occurrences

  method AppendChange(drafts: seq<Draft>, state: FindingState, kind: EventType, previous: EventValue,
                      current: EventValue)
    returns (r: seq<Draft>)
    ensures AsEvents(r) == AsEvents(drafts) + Change(state.findingId, kind, previous, current)
  {
    r := drafts;
    if previous != current {
      r := r + [Draft(state, kind, previous, current, Unstamped)];
    }
  }

  method AppendChanges(drafts: seq<Draft>, s: FindingState, o: Occurrence) returns (r: seq<Draft>)
    ensures AsEvents(r)
      == AsEvents(drafts)
         + Change(s.findingId, SeverityChanged, OfSeverity(s.severity), OfSeverity(o.severity))
         + Change(s.findingId, AssessmentStateChanged, OfAssessment(s.assessment), OfAssessment(o.assessment))
         + Change(s.findingId, KindChanged, OfKind(s.kind), OfKind(o.kind))
  {
    hide AsEvents, Change;
    r := AppendChange(drafts, s, SeverityChanged, OfSeverity(s.severity), OfSeverity(o.severity));
    r := AppendChange(r, s, AssessmentStateChanged, OfAssessment(s.assessment), OfAssessment(o.assessment));
    r := AppendChange(r, s, KindChanged, OfKind(s.kind), OfKind(o.kind));
  }

  lemma ObserveEventsAfter(before: seq<Event>, s: Summary, o: Occurrence)
    ensures before + ObserveEvents(Some(s), o)
      == before + SeenAgain(s)
         + Change(s.findingId, SeverityChanged, OfSeverity(s.severity), OfSeverity(o.severity))
         + Change(s.findingId, AssessmentStateChanged, OfAssessment(s.assessment), OfAssessment(o.assessment))
         + Change(s.findingId, KindChanged, OfKind(s.kind), OfKind(o.kind))
  {
    hide Change;
  }

  /** A known finding is seen again: its events are drafted before its fields change. */
  method SeeAgain(prior: FindingState, drafts: seq<Draft>, o: Occurrence) returns (r: seq<Draft>)
    requires prior.findingId == o.findingId
    modifies prior
    ensures prior.View() == Observe(Some(old(prior.View())), o)
    ensures AsEvents(r) == AsEvents(drafts) + ObserveEvents(Some(old(prior.View())), o)
  {
    hide Change, ObserveEvents;
    ghost var was := prior.View();
    ObserveEventsAfter(AsEvents(drafts), was, o);
    var eventType := if prior.state == Resolved then Reopened else Seen;
    if eventType == Reopened {
      prior.reopened := prior.reopened + 1;
    }
    r := drafts + [Draft(prior, eventType, NoValue, NoValue, Unstamped)];
    assert AsEvents(r) == AsEvents(drafts) + SeenAgain(was);
    hide AsEvents;
    r := AppendChanges(r, prior, o);
    prior.Refresh(o);
  }

  method SeeOne(states: map<FindingId, FindingState>, drafts: seq<Draft>, o: Occurrence, ghost spec: States)
    returns (states': map<FindingId, FindingState>, r: seq<Draft>)
    requires Represents(states, spec)
    modifies states.Values
    ensures Represents(states', spec[o.findingId := Observe(Get(spec, o.findingId), o)])
    ensures fresh(states'.Values - states.Values)
    ensures AsEvents(r) == AsEvents(drafts) + ObserveEvents(Get(spec, o.findingId), o)
  {
    if o.findingId in states {
      var prior := states[o.findingId];
      r := SeeAgain(prior, drafts, o);
      states' := states;
      hide Observe, ObserveEvents, AsEvents;
    } else {
      var state := new FindingState(o);
      r := drafts + [Draft(state, FirstSeen, NoValue, NoValue, Unstamped)];
      states' := states[o.findingId := state];
      hide Observe;
    }
  }

  lemma ObservedSplit(spec: States, occurrences: seq<Occurrence>, i: nat)
    requires i < |occurrences|
    ensures Observed(spec, occurrences[..i + 1])
      == Observed(spec, occurrences[..i])[occurrences[i].findingId :=
           Observe(Get(Observed(spec, occurrences[..i]), occurrences[i].findingId), occurrences[i])]
    ensures ObservedEvents(spec, occurrences[..i + 1])
      == ObservedEvents(spec, occurrences[..i])
         + ObserveEvents(Get(Observed(spec, occurrences[..i]), occurrences[i].findingId), occurrences[i])
  {
    hide Observe, ObserveEvents;
    assert occurrences[..i + 1][..i] == occurrences[..i];
  }

  method SeeAll(states: map<FindingId, FindingState>, drafts: seq<Draft>, r: Report, ghost spec: States)
    returns (states': map<FindingId, FindingState>, drafts': seq<Draft>)
    requires Represents(states, spec)
    modifies states.Values
    ensures Represents(states', Observed(spec, r.occurrences))
    ensures fresh(states'.Values - states.Values)
    ensures AsEvents(drafts') == AsEvents(drafts) + ObservedEvents(spec, r.occurrences)
  {
    states', drafts' := states, drafts;
    hide Represents, AsEvents, Observe, ObserveEvents;
    for i := 0 to |r.occurrences|
      invariant Represents(states', Observed(spec, r.occurrences[..i]))
      invariant fresh(states'.Values - states.Values)
      invariant AsEvents(drafts') == AsEvents(drafts) + ObservedEvents(spec, r.occurrences[..i])
    {
      states', drafts' := SeeOne(states', drafts', r.occurrences[i], Observed(spec, r.occurrences[..i]));
      ObservedSplit(spec, r.occurrences, i);
      hide Observed, ObservedEvents;
    }
    assert r.occurrences[..|r.occurrences|] == r.occurrences;
  }

  // ----- absences

  method MissOne(state: FindingState, drafts: seq<Draft>, r: Report, casefold: string -> string)
    returns (drafts': seq<Draft>)
    modifies state
    ensures state.View() == Miss(old(state.View()), r, casefold)
    ensures AsEvents(drafts') == AsEvents(drafts) + MissEvents(old(state.View()), r, casefold)
  {
    drafts' := drafts;
    hide Coverage.StoredComplete;
    if state.state == Resolved { return; }
    if Coverage.StoredComplete(casefold(state.source), r.coverage) {
      var previousState := state.state;
      state.state := Resolved;
      state.lastResolved := Some(r.generatedAt);
      drafts' := drafts' + [Draft(state, ResolvedEvent, OfState(previousState), OfState(Resolved), Unstamped)];
    } else {
      state.state := ResolutionUncertain;
    }
  }

  lemma MissedSplit(spec: States, ids: seq<FindingId>, r: Report, casefold: string -> string, k: nat)
    requires k < |ids|
    ensures var before := Missed(spec, ids[..k], r, casefold);
      var missed := ids[k] in before && !Present(r, ids[k]);
      && Missed(spec, ids[..k + 1], r, casefold)
           == (if missed then before[ids[k] := Miss(before[ids[k]], r, casefold)] else before)
      && MissedEvents(spec, ids[..k + 1], r, casefold)
           == MissedEvents(spec, ids[..k], r, casefold)
              + (if missed then MissEvents(before[ids[k]], r, casefold) else [])
      && Missed(spec, ids[..k + 1], r, casefold).Keys == before.Keys
  {
    hide Miss, MissEvents, Present;
    assert ids[..k + 1][..k] == ids[..k];
  }

  /** One turn of the absence loop. */
  method MissTurn(states: map<FindingId, FindingState>, drafts: seq<Draft>, id: FindingId, present: set<FindingId>,
                  r: Report, casefold: string -> string, ghost spec: States)
    returns (drafts': seq<Draft>)
    requires Represents(states, spec) && id in states
    requires id in present <==> Present(r, id)
    modifies states.Values
    ensures Represents(states, if Present(r, id) then spec else spec[id := Miss(spec[id], r, casefold)])
    ensures AsEvents(drafts')
      == AsEvents(drafts) + if Present(r, id) then [] else MissEvents(spec[id], r, casefold)
  {
    hide Miss, MissEvents, Present, AsEvents;
    drafts' := drafts;
    if id !in present {
      drafts' := MissOne(states[id], drafts, r, casefold);
    }
  }

  ghost predicate IsPresentSet(present: set<FindingId>, r: Report) {
    forall id :: id in present <==> Present(r, id)
  }

  /** Turn k of the absence loop, with the events drafted before the loop held aside. */
  method MissNext(states: map<FindingId, FindingState>, drafts: seq<Draft>, ids: seq<FindingId>, k: nat,
                  present: set<FindingId>, r: Report, casefold: string -> string, ghost spec: States,
                  ghost done: seq<Event>)
    returns (drafts': seq<Draft>)
    requires k < |ids| && ids[k] in states
    requires Represents(states, Missed(spec, ids[..k], r, casefold)) && ids[k] in Missed(spec, ids[..k], r, casefold)
    requires IsPresentSet(present, r)
    requires AsEvents(drafts) == done + MissedEvents(spec, ids[..k], r, casefold)
    modifies states.Values
    ensures Represents(states, Missed(spec, ids[..k + 1], r, casefold))
    ensures Missed(spec, ids[..k + 1], r, casefold).Keys == Missed(spec, ids[..k], r, casefold).Keys
    ensures AsEvents(drafts') == done + MissedEvents(spec, ids[..k + 1], r, casefold)
  {
    hide Represents, AsEvents, Miss, MissEvents, Present, Missed, MissedEvents;
    drafts' := MissTurn(states, drafts, ids[k], present, r, casefold, Missed(spec, ids[..k], r, casefold));
    MissedSplit(spec, ids, r, casefold, k);
  }

  /** The absence loop over given ids. */
  method MissEach(states: map<FindingId, FindingState>, drafts: seq<Draft>, ids: seq<FindingId>,
                  present: set<FindingId>, r: Report, casefold: string -> string, ghost spec: States)
    returns (drafts': seq<Draft>)
    requires Represents(states, spec) && forall id :: id in ids ==> id in states
    requires IsPresentSet(present, r)
    modifies states.Values
    ensures Represents(states, Missed(spec, ids, r, casefold))
    ensures AsEvents(drafts') == AsEvents(drafts) + MissedEvents(spec, ids, r, casefold)
  {
    hide AsEvents, Missed, MissedEvents, IsPresentSet;
    drafts' := drafts;
    MissedNone(spec, ids, r, casefold);
    assert spec.Keys == states.Keys;
    hide Represents;
    ghost var done := AsEvents(drafts);
    for k := 0 to |ids|
      invariant Represents(states, Missed(spec, ids[..k], r, casefold))
      invariant Missed(spec, ids[..k], r, casefold).Keys == spec.Keys
      invariant AsEvents(drafts') == done + MissedEvents(spec, ids[..k], r, casefold)
    {
      assert ids[k] in ids;
      drafts' := MissNext(states, drafts', ids, k, present, r, casefold, spec, done);
    }
    assert ids[..|ids|] == ids;
  }

  lemma MissedNone(spec: States, ids: seq<FindingId>, r: Report, casefold: string -> string)
    ensures Missed(spec, ids[..0], r, casefold) == spec && MissedEvents(spec, ids[..0], r, casefold) == []
  {
  }

  method MissAll(states: map<FindingId, FindingState>, drafts: seq<Draft>, present: set<FindingId>, r: Report,
                 casefold: string -> string, ghost spec: States)
    returns (drafts': seq<Draft>)
    requires Represents(states, spec)
    requires IsPresentSet(present, r)
    modifies states.Values
    ensures Represents(states, Missed(spec, SortedIds(spec), r, casefold))
    ensures AsEvents(drafts') == AsEvents(drafts) + MissedEvents(spec, SortedIds(spec), r, casefold)
  {
    hide AsEvents, Missed, MissedEvents, Present, Listing, StrLe, Distinct;
    var ids := SortedListing(states.Keys);
    assert ids == SortedIds(spec);
    drafts' := MissEach(states, drafts, ids, present, r, casefold, spec);
  }

  // ----- late stamping

  predicate IsSighting(kind: EventType) {
    kind == FirstSeen || kind == Seen || kind == Reopened
  }

  /** The stamping condition: a sighting, a change of a finding in this report, or a resolution. */
  predicate Due(e: Event, present: set<FindingId>) {
    e.stamp == Unstamped
    && (IsSighting(e.kind) || (IsChange(e.kind) && e.findingId in present) || e.kind == ResolvedEvent)
  }

  method StampLate(drafts: seq<Draft>, present: set<FindingId>, r: Report) returns (drafts': seq<Draft>)
    ensures |drafts'| == |drafts|
    ensures forall i :: 0 <= i < |drafts| ==>
      AsEvent(drafts'[i]) == if Due(AsEvent(drafts[i]), present) then StampEvent(AsEvent(drafts[i]), r)
                             else AsEvent(drafts[i])
  {
    drafts' := drafts;
    for index := 0 to |drafts|
      invariant |drafts'| == |drafts|
      invariant forall i :: index <= i < |drafts| ==> drafts'[i] == drafts[i]
      invariant forall i :: 0 <= i < index ==>
        AsEvent(drafts'[i]) == if Due(AsEvent(drafts[i]), present) then StampEvent(AsEvent(drafts[i]), r)
                               else AsEvent(drafts[i])
    {
      var item := drafts'[index];
      if item.stamp == Unstamped {
        if IsSighting(item.kind) || (IsChange(item.kind) && item.state.findingId in present) {
          drafts' := drafts'[index := item.(stamp := Stamped(r.reportId, r.generatedAt))];
        } else if item.kind == ResolvedEvent && item.stamp == Unstamped {
          drafts' := drafts'[index := item.(stamp := Stamped(r.reportId, r.generatedAt))];
        }
      }
    }
  }

  ghost predicate AllStamped(es: seq<Event>) {
    forall e :: e in es ==> e.stamp.Stamped?
  }

  /** Every event of a step satisfies the stamping condition of that step. */
  ghost predicate AllDue(es: seq<Event>, present: set<FindingId>) {
    forall e :: e in es ==> Due(e, present)
  }

  lemma AllDueConcat(a: seq<Event>, b: seq<Event>, present: set<FindingId>)
    requires AllDue(a, present) && AllDue(b, present)
    ensures AllDue(a + b, present)
  {
  }

  lemma ObserveEventsDue(prior: Option<Summary>, o: Occurrence, present: set<FindingId>)
    requires o.findingId in present && (prior.Some? ==> prior.value.findingId == o.findingId)
    ensures AllDue(ObserveEvents(prior, o), present)
  {
  }

  lemma {:induction false} ObservedEventsDue(spec: States, occurrences: seq<Occurrence>, present: set<FindingId>)
    requires Keyed(spec) && forall o :: o in occurrences ==> o.findingId in present
    ensures AllDue(ObservedEvents(spec, occurrences), present) && Keyed(Observed(spec, occurrences))
  {
    if occurrences != [] {
      var init, o := occurrences[..|occurrences| - 1], occurrences[|occurrences| - 1];
      ObservedEventsDue(spec, init, present);
      ObserveEventsDue(Get(Observed(spec, init), o.findingId), o, present);
      AllDueConcat(ObservedEvents(spec, init), ObserveEvents(Get(Observed(spec, init), o.findingId), o), present);
      hide ObserveEvents, AllDue;
    }
  }

  lemma {:induction false} MissedEventsDue(spec: States, ids: seq<FindingId>, r: Report, casefold: string -> string,
                                           present: set<FindingId>)
    ensures AllDue(MissedEvents(spec, ids, r, casefold), present)
  {
    hide Proves, Present;
    if ids != [] {
      var init, id := ids[..|ids| - 1], ids[|ids| - 1];
      MissedEventsDue(spec, init, r, casefold, present);
      hide Missed;
    }
  }

  lemma StepEventsDue(spec: States, r: Report, casefold: string -> string, present: set<FindingId>)
    requires Keyed(spec) && forall o :: o in r.occurrences ==> o.findingId in present
    ensures AllDue(StepEvents(spec, r, casefold), present)
  {
    var seen := Observed(spec, r.occurrences);
    ObservedEventsDue(spec, r.occurrences, present);
    MissedEventsDue(seen, SortedIds(seen), r, casefold, present);
    hide AllDue, Observed, ObservedEvents, MissedEvents, SortedIds;
    AllDueConcat(ObservedEvents(spec, r.occurrences), MissedEvents(seen, SortedIds(seen), r, casefold), present);
  }

  lemma {:induction false} EventsAreStamped(h: History, casefold: string -> string)
    ensures AllStamped(EventsAfter(h, casefold))
  {
    if h != [] {
      EventsAreStamped(h[..|h| - 1], casefold);
      StampAt(StepEvents(StatesAfter(h[..|h| - 1], casefold), h[|h| - 1], casefold), h[|h| - 1]);
      hide StampAll, StepEvents, StatesAfter;
    }
  }

  /** Late stamping of done + drafted leaves the done ones and stamps all drafted ones. */
  lemma LateStamping(done: seq<Event>, added: seq<Event>, after: seq<Event>, present: set<FindingId>, r: Report)
    requires AllStamped(done) && AllDue(added, present)
    requires |after| == |done + added|
    requires forall i :: 0 <= i < |after| ==>
      after[i] == if Due((done + added)[i], present) then StampEvent((done + added)[i], r) else (done + added)[i]
    ensures after == done + StampAll(added, r)
  {
    StampAt(added, r);
    hide StampAll;
    forall i | 0 <= i < |after| ensures after[i] == (done + StampAll(added, r))[i] {
      if i < |done| {
        assert (done + added)[i] == done[i] && done[i] in done;
      } else {
        assert (done + added)[i] == added[i - |done|] && added[i - |done|] in added;
      }
    }
  }

  lemma KeyedHistory(h: History, casefold: string -> string)
    ensures Keyed(StatesAfter(h, casefold))
  {
    if h != [] {
      var r := h[|h| - 1];
      var spec := StatesAfter(h[..|h| - 1], casefold);
      KeyedHistory(h[..|h| - 1], casefold);
      KeyedObserved(spec, r.occurrences);
      KeyedMissed(Observed(spec, r.occurrences), SortedIds(Observed(spec, r.occurrences)), r, casefold);
      hide Observed, Missed, SortedIds;
    }
  }

  lemma {:induction false} KeyedObserved(spec: States, occurrences: seq<Occurrence>)
    requires Keyed(spec)
    ensures Keyed(Observed(spec, occurrences))
  {
    if occurrences != [] { KeyedObserved(spec, occurrences[..|occurrences| - 1]); }
  }

  lemma {:induction false} KeyedMissed(spec: States, ids: seq<FindingId>, r: Report, casefold: string -> string)
    requires Keyed(spec)
    ensures Keyed(Missed(spec, ids, r, casefold))
  {
    hide Proves, Present;
    if ids != [] { KeyedMissed(spec, ids[..|ids| - 1], r, casefold); }
  }

  // ----- the whole derivation

  /** One report: occurrences, absences in id order, then stamping of everything unstamped. */
  method DeriveOne(states: map<FindingId, FindingState>, drafts: seq<Draft>, r: Report, casefold: string -> string,
                   ghost spec: States)
    returns (states': map<FindingId, FindingState>, drafts': seq<Draft>)
    requires Represents(states, spec) && Keyed(spec) && AllStamped(AsEvents(drafts))
    modifies states.Values
    ensures Represents(states', StepStates(spec, r, casefold))
    ensures fresh(states'.Values - states.Values)
    ensures AsEvents(drafts') == AsEvents(drafts) + StampAll(StepEvents(spec, r, casefold), r)
  {
    hide Represents, Observed, ObservedEvents, Missed, MissedEvents, SortedIds, Keyed, AllStamped, AllDue, StampAll,
      Due;
    var present := set o | o in r.occurrences :: o.findingId;
    states', drafts' := SeeAll(states, drafts, r, spec);
    drafts' := MissAll(states', drafts', present, r, casefold, Observed(spec, r.occurrences));
    ghost var before := AsEvents(drafts');
    assert before == AsEvents(drafts) + StepEvents(spec, r, casefold);
    drafts' := StampLate(drafts', present, r);
    StepEventsDue(spec, r, casefold, present);
    LateStamping(AsEvents(drafts), StepEvents(spec, r, casefold), AsEvents(drafts'), present, r);
  }

  /** The derivation refines the specification, which stamps each event as it is appended. */
  method Derive(reports: History, casefold: string -> string)
    returns (states: map<FindingId, FindingState>, drafts: seq<Draft>)
    ensures Represents(states, StatesAfter(reports, casefold)) && fresh(states.Values)
    ensures AsEvents(drafts) == EventsAfter(reports, casefold)
  {
    states, drafts := map[], [];
    assert Represents(states, StatesAfter(reports[..0], casefold));
    hide Represents, AsEvents, StepStates, StepEvents, StampAll;
    for i := 0 to |reports|
      invariant Represents(states, StatesAfter(reports[..i], casefold)) && fresh(states.Values)
      invariant AsEvents(drafts) == EventsAfter(reports[..i], casefold)
    {
      KeyedHistory(reports[..i], casefold);
      EventsAreStamped(reports[..i], casefold);
      HistoryStep(reports, i, casefold);
      hide StatesAfter, EventsAfter, Keyed, AllStamped;
      states, drafts := DeriveOne(states, drafts, reports[i], casefold, StatesAfter(reports[..i], casefold));
    }
    assert reports[..|reports|] == reports;
  }

  lemma HistoryStep(h: History, i: nat, casefold: string -> string)
    requires i < |h|
    ensures StatesAfter(h[..i + 1], casefold) == StepStates(StatesAfter(h[..i], casefold), h[i], casefold)
    ensures EventsAfter(h[..i + 1], casefold)
      == EventsAfter(h[..i], casefold) + StampAll(StepEvents(StatesAfter(h[..i], casefold), h[i], casefold), h[i])
  {
    assert h[..i + 1][..i] == h[..i];
  }
}
