/** The finding lifecycle as a fold over a report history, and its per-finding projection. */
module Lifecycle {
  import opened Common
  import opened Orders
  import opened Vocabulary
  import opened Coverage

  type FindingId = string

  datatype Occurrence = Occurrence(
    findingId: FindingId,
    observedAt: int,
    title: string,
    severity: Severity,
    kind: FindingKind,
    assessment: AssessmentState,
    source: string,
    inferred: bool)

  datatype Report = Report(
    reportId: string,
    generatedAt: int,
    coverage: Option<CoverageObject>,
    occurrences: seq<Occurrence>)

  datatype LifecycleState = Active | ResolutionUncertain | Resolved

  datatype EventType =
    FirstSeen | Seen | Reopened | ResolvedEvent | SeverityChanged | AssessmentStateChanged | KindChanged

  datatype EventValue =
    | NoValue
    | OfSeverity(severity: Severity)
    | OfAssessment(assessment: AssessmentState)
    | OfKind(kind: FindingKind)
    | OfState(state: LifecycleState)

  /** The report an event is booked on, once known. */
  datatype Stamp = Unstamped | Stamped(reportId: string, occurredAt: int)

  datatype Event = Event(
    findingId: FindingId, kind: EventType, previous: EventValue, current: EventValue, stamp: Stamp)

  datatype Summary = Summary(
    findingId: FindingId,
    firstSeen: int,
    lastSeen: int,
    count: nat,
    state: LifecycleState,
    reopened: nat,
    lastResolved: Option<int>,
    title: string,
    severity: Severity,
    kind: FindingKind,
    assessment: AssessmentState,
    source: string,
    inferred: bool)

  // ----- one finding, one report

  function Observe(prior: Option<Summary>, o: Occurrence): Summary {
    match prior
    case None =>
      Summary(o.findingId, o.observedAt, o.observedAt, 1, Active, 0, None, o.title, o.severity, o.kind,
              o.assessment, o.source, o.inferred)
    case Some(s) =>
      Summary(s.findingId, s.firstSeen, o.observedAt, s.count + 1, Active,
              if s.state == Resolved then s.reopened + 1 else s.reopened, s.lastResolved,
              o.title, o.severity, o.kind, o.assessment, o.source, o.inferred)
  }

  function Change(id: FindingId, kind: EventType, previous: EventValue, current: EventValue): seq<Event> {
    if previous == current then [] else [Event(id, kind, previous, current, Unstamped)]
  }

  function ObserveEvents(prior: Option<Summary>, o: Occurrence): seq<Event> {
    match prior
    case None => [Event(o.findingId, FirstSeen, NoValue, NoValue, Unstamped)]
    case Some(s) =>
      [Event(s.findingId, if s.state == Resolved then Reopened else Seen, NoValue, NoValue, Unstamped)]
      + Change(s.findingId, SeverityChanged, OfSeverity(s.severity), OfSeverity(o.severity))
      + Change(s.findingId, AssessmentStateChanged, OfAssessment(s.assessment), OfAssessment(o.assessment))
      + Change(s.findingId, KindChanged, OfKind(s.kind), OfKind(o.kind))
  }

  predicate Proves(source: string, r: Report, casefold: string -> string) {
    StoredComplete(casefold(source), r.coverage)
  }

  function Miss(s: Summary, r: Report, casefold: string -> string): Summary {
    if s.state == Resolved then s
    else if Proves(s.source, r, casefold) then s.(state := Resolved, lastResolved := Some(r.generatedAt))
    else s.(state := ResolutionUncertain)
  }

  function MissEvents(s: Summary, r: Report, casefold: string -> string): seq<Event> {
    if s.state == Resolved || !Proves(s.source, r, casefold) then []
    else [Event(s.findingId, ResolvedEvent, OfState(s.state), OfState(Resolved), Unstamped)]
  }

  function StampEvent(e: Event, r: Report): Event {
    e.(stamp := Stamped(r.reportId, r.generatedAt))
  }

  function StampAll(es: seq<Event>, r: Report): seq<Event> {
    if es == [] then [] else [StampEvent(es[0], r)] + StampAll(es[1..], r)
  }

  // ----- all findings: the occurrence loop, then the absence loop

  type States = map<FindingId, Summary>

  function Get(states: States, id: FindingId): Option<Summary> {
    if id in states then Some(states[id]) else None
  }

  /** Summaries after the occurrences of a report, one after the other. */
  function Observed(states: States, occurrences: seq<Occurrence>): States {
    if occurrences == [] then states
    else
      var before := Observed(states, occurrences[..|occurrences| - 1]);
      var o := occurrences[|occurrences| - 1];
      before[o.findingId := Observe(Get(before, o.findingId), o)]
  }

  function ObservedEvents(states: States, occurrences: seq<Occurrence>): seq<Event> {
    if occurrences == [] then []
    else
      var init := occurrences[..|occurrences| - 1];
      var o := occurrences[|occurrences| - 1];
      ObservedEvents(states, init) + ObserveEvents(Get(Observed(states, init), o.findingId), o)
  }

  predicate Present(r: Report, id: FindingId) {
    exists o :: o in r.occurrences && o.findingId == id
  }

  /** Summaries after the absence loop over the given ids. */
  function Missed(states: States, ids: seq<FindingId>, r: Report, casefold: string -> string): States {
    if ids == [] then states
    else
      var before := Missed(states, ids[..|ids| - 1], r, casefold);
      var id := ids[|ids| - 1];
      if id in before && !Present(r, id) then before[id := Miss(before[id], r, casefold)] else before
  }

  function MissedEvents(states: States, ids: seq<FindingId>, r: Report, casefold: string -> string): seq<Event> {
    if ids == [] then []
    else
      var init := ids[..|ids| - 1];
      var before := Missed(states, init, r, casefold);
      var id := ids[|ids| - 1];
      MissedEvents(states, init, r, casefold)
      + (if id in before && !Present(r, id) then MissEvents(before[id], r, casefold) else [])
  }

  ghost function SortedIds(states: States): seq<FindingId> {
    Listing(states.Keys, StrLe)
  }

  ghost function StepStates(states: States, r: Report, casefold: string -> string): States {
    var seen := Observed(states, r.occurrences);
    Missed(seen, SortedIds(seen), r, casefold)
  }

  ghost function StepEvents(states: States, r: Report, casefold: string -> string): seq<Event> {
    var seen := Observed(states, r.occurrences);
    ObservedEvents(states, r.occurrences) + MissedEvents(seen, SortedIds(seen), r, casefold)
  }

  type History = seq<Report>

  ghost function StatesAfter(h: History, casefold: string -> string): States {
    if h == [] then map[] else StepStates(StatesAfter(h[..|h| - 1], casefold), h[|h| - 1], casefold)
  }

  /** Every event, stamped with its report as it is appended. */
  ghost function EventsAfter(h: History, casefold: string -> string): seq<Event> {
    if h == [] then []
    else
      EventsAfter(h[..|h| - 1], casefold)
      + StampAll(StepEvents(StatesAfter(h[..|h| - 1], casefold), h[|h| - 1], casefold), h[|h| - 1])
  }

  // ----- one finding over a history

  function Find(occurrences: seq<Occurrence>, id: FindingId): Option<Occurrence> {
    if occurrences == [] then None
    else if occurrences[|occurrences| - 1].findingId == id then Some(occurrences[|occurrences| - 1])
    else Find(occurrences[..|occurrences| - 1], id)
  }

  function TrackStep(prior: Option<Summary>, r: Report, id: FindingId, casefold: string -> string): Option<Summary> {
    var o := Find(r.occurrences, id);
    if o.Some? then Some(Observe(prior, o.value))
    else if prior.Some? then Some(Miss(prior.value, r, casefold))
    else None
  }

  function TrackStepEvents(prior: Option<Summary>, r: Report, id: FindingId, casefold: string -> string): seq<Event> {
    var o := Find(r.occurrences, id);
    if o.Some? then ObserveEvents(prior, o.value)
    else if prior.Some? then MissEvents(prior.value, r, casefold)
    else []
  }

  /** The summary of one finding, computed without looking at any other. */
  function Track(h: History, id: FindingId, casefold: string -> string): Option<Summary> {
    if h == [] then None
    else TrackStep(Track(h[..|h| - 1], id, casefold), h[|h| - 1], id, casefold)
  }

  function TrackEvents(h: History, id: FindingId, casefold: string -> string): seq<Event> {
    if h == [] then []
    else
      TrackEvents(h[..|h| - 1], id, casefold)
      + StampAll(TrackStepEvents(Track(h[..|h| - 1], id, casefold), h[|h| - 1], id, casefold), h[|h| - 1])
  }

  function OfFinding(es: seq<Event>, id: FindingId): seq<Event> {
    if es == [] then []
    else OfFinding(es[..|es| - 1], id) + (if es[|es| - 1].findingId == id then [es[|es| - 1]] else [])
  }

  // ----- well-formed histories

  ghost predicate WellFormedReport(r: Report) {
    && (forall i, j :: 0 <= i < j < |r.occurrences| ==> r.occurrences[i].findingId != r.occurrences[j].findingId)
    && (forall o :: o in r.occurrences ==> o.observedAt == r.generatedAt)
  }

  /** Each finding at most once per report, report ids distinct, reports in time order. */
  ghost predicate WellFormed(h: History) {
    && (forall i :: 0 <= i < |h| ==> WellFormedReport(h[i]))
    && (forall i, j :: 0 <= i < j < |h| ==> h[i].reportId != h[j].reportId)
    && (forall i, j :: 0 <= i < j < |h| ==> h[i].generatedAt <= h[j].generatedAt)
  }
}
