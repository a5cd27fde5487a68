/** Every event of a run, read off the reports: what each report books about each finding, and with which values. */
module LifecycleEvents {
  import opened Common
  import opened Coverage
  import opened Lifecycle
  import opened LifecycleLaws
  import opened LifecycleIdentity

  ghost predicate Absent(r: Report, id: FindingId) {
    forall o :: o in r.occurrences ==> o.findingId != id
  }

  /** p is how the finding was last reported before report k, by report j. */
  ghost predicate LastReported(h: History, k: nat, id: FindingId, j: nat, p: Occurrence)
    requires k <= |h|
  {
    && j < k && p in h[j].occurrences && p.findingId == id
    && forall i :: j < i < k ==> Absent(h[i], id)
  }

  /** Some report strictly between j and k covers the source completely. */
  ghost predicate ProvedBetween(h: History, j: nat, k: nat, source: string, casefold: string -> string)
    requires k <= |h|
  {
    exists i :: j < i < k && StoredComplete(casefold(source), h[i].coverage)
  }

  /** The events about a finding that report k adds to those of the reports before it. */
  ghost predicate Books(h: History, k: nat, id: FindingId, casefold: string -> string, es: seq<Event>)
    requires k < |h|
  {
    OfFinding(EventsAfter(h[..k + 1], casefold), id) == OfFinding(EventsAfter(h[..k], casefold), id) + es
  }

  function On(r: Report, id: FindingId, kind: EventType, previous: EventValue, current: EventValue): Event {
    Event(id, kind, previous, current, Stamped(r.reportId, r.generatedAt))
  }

  // ----- the history up to report k

  lemma PrefixIsWellFormed(h: History, k: nat)
    requires WellFormedReports(h) && k <= |h|
    ensures WellFormedReports(h[..k])
  {
  }

  lemma OneReportMore(h: History, k: nat, id: FindingId, casefold: string -> string)
    requires k < |h|
    ensures TrackEvents(h[..k + 1], id, casefold)
      == TrackEvents(h[..k], id, casefold)
         + StampAll(TrackStepEvents(Track(h[..k], id, casefold), h[k], id, casefold), h[k])
  {
    assert h[..k + 1][..k] == h[..k] && h[..k + 1][k] == h[k];
    hide Track, TrackStepEvents, StampAll;
  }

  lemma StepAdds(h: History, k: nat, id: FindingId, casefold: string -> string)
    requires WellFormedReports(h) && k < |h|
    ensures Books(h, k, id, casefold,
                  StampAll(TrackStepEvents(Track(h[..k], id, casefold), h[k], id, casefold), h[k]))
  {
    PrefixIsWellFormed(h, k);
    PrefixIsWellFormed(h, k + 1);
    hide EventsAfter, StatesAfter, OfFinding, Track, TrackEvents, TrackStepEvents, WellFormedReports, StampAll;
    OneReportMore(h, k, id, casefold);
    FindingsAreIndependent(h[..k], casefold, id);
    FindingsAreIndependent(h[..k + 1], casefold, id);
  }

  lemma FoundIs(r: Report, o: Occurrence)
    requires WellFormedReport(r) && o in r.occurrences
    ensures Find(r.occurrences, o.findingId) == Some(o)
  {
    FindMeans(r.occurrences, o.findingId);
    hide Find;
    var f := Find(r.occurrences, o.findingId);
    var i :| 0 <= i < |r.occurrences| && r.occurrences[i] == o;
    var j :| 0 <= j < |r.occurrences| && r.occurrences[j] == f.value;
  }

  lemma AbsentIsNotFound(r: Report, id: FindingId)
    requires Absent(r, id)
    ensures Find(r.occurrences, id).None?
  {
    FindMeans(r.occurrences, id);
    hide Find;
  }

  lemma NeverReported(h: History, k: nat, id: FindingId, casefold: string -> string)
    requires k <= |h| && forall i :: 0 <= i < k ==> Absent(h[i], id)
    ensures Track(h[..k], id, casefold).None?
  {
    LifecycleClosedForm(h[..k], id, casefold);
    var j := LastIn(h[..k], id);
    hide Find, Track;
    if j >= 0 { AbsentIsNotFound(h[j], id); }
  }

  /** The summary a report meets, where the finding was reported before. */
  lemma PriorIs(h: History, k: nat, id: FindingId, j: nat, p: Occurrence, casefold: string -> string)
    requires WellFormedReports(h) && k <= |h| && LastReported(h, k, id, j, p)
    ensures Track(h[..k], id, casefold).Some?
    ensures var s := Track(h[..k], id, casefold).value;
      && s.title == p.title && s.severity == p.severity && s.kind == p.kind && s.assessment == p.assessment
      && s.source == p.source && s.inferred == p.inferred && s.lastSeen == p.observedAt
      && (s.state == Active <==> j == k - 1)
      && (s.state == Resolved <==> j < k - 1 && ProvedBetween(h, j, k, p.source, casefold))
  {
    var init := h[..k];
    LifecycleClosedForm(init, id, casefold);
    FoundIs(h[j], p);
    assert init[j] == h[j] && InReport(init[j], id);
    forall i | j < i < k ensures !InReport(init[i], id) {
      AbsentIsNotFound(h[i], id);
    }
    hide Find, Track, StoredComplete, WellFormedReport;
    assert LastIn(init, id) == j;
    SameProofs(h, j, k, p.source, casefold);
  }

  lemma SameProofs(h: History, j: nat, k: nat, source: string, casefold: string -> string)
    requires k <= |h|
    ensures ProvedAfter(h[..k], j, source, casefold) <==> ProvedBetween(h, j, k, source, casefold)
  {
    hide StoredComplete;
    if ProvedBetween(h, j, k, source, casefold) {
      var i :| j < i < k && StoredComplete(casefold(source), h[i].coverage);
      assert Proves(source, h[..k][i], casefold);
    }
  }

  /** Only the occurrence of the finding is known by its summary's id. */
  lemma {:induction false} TrackedId(h: History, id: FindingId, casefold: string -> string)
    ensures Track(h, id, casefold).Some? ==> Track(h, id, casefold).value.findingId == id
  {
    if h != [] {
      TrackedId(h[..|h| - 1], id, casefold);
      FindMeans(h[|h| - 1].occurrences, id);
      hide Find, Proves;
    }
  }

  // ----- the four cases

  /** A finding no report held is booked as FIRST_SEEN, without values. */
  lemma FirstReportBooks(h: History, k: nat, o: Occurrence, casefold: string -> string)
    requires WellFormedReports(h) && k < |h| && o in h[k].occurrences
    requires forall i :: 0 <= i < k ==> Absent(h[i], o.findingId)
    ensures Books(h, k, o.findingId, casefold, [On(h[k], o.findingId, FirstSeen, NoValue, NoValue)])
  {
    StepAdds(h, k, o.findingId, casefold);
    NeverReported(h, k, o.findingId, casefold);
    FoundIs(h[k], o);
    hide Books, Find, Track;
    var e := Event(o.findingId, FirstSeen, NoValue, NoValue, Unstamped);
    assert StampAll([e], h[k]) == [StampEvent(e, h[k])];
  }

  /** What a report that holds the finding again books: the sighting, then what changed since the last one. */
  function SightingEvents(r: Report, p: Occurrence, o: Occurrence, reopened: bool): seq<Event> {
    [On(r, o.findingId, if reopened then Reopened else Seen, NoValue, NoValue)]
    + (if p.severity == o.severity then []
       else [On(r, o.findingId, SeverityChanged, OfSeverity(p.severity), OfSeverity(o.severity))])
    + (if p.assessment == o.assessment then []
       else [On(r, o.findingId, AssessmentStateChanged, OfAssessment(p.assessment), OfAssessment(o.assessment))])
    + (if p.kind == o.kind then [] else [On(r, o.findingId, KindChanged, OfKind(p.kind), OfKind(o.kind))])
  }

  lemma StampedChange(r: Report, id: FindingId, kind: EventType, previous: EventValue, current: EventValue)
    ensures StampAll(Change(id, kind, previous, current), r)
      == if previous == current then [] else [On(r, id, kind, previous, current)]
  {
    var e := Event(id, kind, previous, current, Unstamped);
    assert StampAll([e], r) == [StampEvent(e, r)];
  }

  lemma StampedSighting(s: Summary, p: Occurrence, o: Occurrence, r: Report)
    requires s.findingId == o.findingId
    requires s.severity == p.severity && s.assessment == p.assessment && s.kind == p.kind
    ensures StampAll(ObserveEvents(Some(s), o), r) == SightingEvents(r, p, o, s.state == Resolved)
  {
    var head := Event(s.findingId, if s.state == Resolved then Reopened else Seen, NoValue, NoValue, Unstamped);
    var a := Change(s.findingId, SeverityChanged, OfSeverity(s.severity), OfSeverity(o.severity));
    var b := Change(s.findingId, AssessmentStateChanged, OfAssessment(s.assessment), OfAssessment(o.assessment));
    var c := Change(s.findingId, KindChanged, OfKind(s.kind), OfKind(o.kind));
    assert ObserveEvents(Some(s), o) == [head] + a + b + c;
    StampedChange(r, s.findingId, SeverityChanged, OfSeverity(s.severity), OfSeverity(o.severity));
    StampedChange(r, s.findingId, AssessmentStateChanged, OfAssessment(s.assessment), OfAssessment(o.assessment));
    StampedChange(r, s.findingId, KindChanged, OfKind(s.kind), OfKind(o.kind));
    assert StampAll([head], r) == [StampEvent(head, r)];
    hide Change, StampAll, ObserveEvents;
    StampConcat([head], a, r);
    StampConcat([head] + a, b, r);
    StampConcat([head] + a + b, c, r);
  }

  /** A finding reported before: REOPENED iff its absence was proved in between, then its changes with both values. */
  lemma LaterReportBooks(h: History, k: nat, o: Occurrence, j: nat, p: Occurrence, casefold: string -> string)
    requires WellFormedReports(h) && k < |h| && o in h[k].occurrences && LastReported(h, k, o.findingId, j, p)
    ensures Books(h, k, o.findingId, casefold,
                  SightingEvents(h[k], p, o, ProvedBetween(h, j, k, p.source, casefold)))
  {
    StepAdds(h, k, o.findingId, casefold);
    PriorIs(h, k, o.findingId, j, p, casefold);
    TrackedId(h[..k], o.findingId, casefold);
    FoundIs(h[k], o);
    hide Books, Find, Track, SightingEvents, LastReported, ObserveEvents, StampAll, StoredComplete;
    StampedSighting(Track(h[..k], o.findingId, casefold).value, p, o, h[k]);
  }

  lemma StampedMiss(s: Summary, r: Report, casefold: string -> string)
    ensures StampAll(MissEvents(s, r, casefold), r)
      == if s.state == Resolved || !StoredComplete(casefold(s.source), r.coverage) then []
         else [On(r, s.findingId, ResolvedEvent, OfState(s.state), OfState(Resolved))]
  {
    hide StoredComplete;
    var e := Event(s.findingId, ResolvedEvent, OfState(s.state), OfState(Resolved), Unstamped);
    assert StampAll([e], r) == [StampEvent(e, r)];
  }

  /**
   * A finding not in the report: RESOLVED iff this report is the first since the last sighting to
   * prove its absence, from ACTIVE directly after the sighting and from RESOLUTION_UNCERTAIN later.
   */
  lemma AbsenceBooks(h: History, k: nat, id: FindingId, j: nat, p: Occurrence, casefold: string -> string)
    requires WellFormedReports(h) && k < |h| && Absent(h[k], id) && LastReported(h, k, id, j, p)
    ensures Books(h, k, id, casefold,
                  if ProvedBetween(h, j, k, p.source, casefold) || !StoredComplete(casefold(p.source), h[k].coverage)
                  then []
                  else [On(h[k], id, ResolvedEvent, OfState(if j == k - 1 then Active else ResolutionUncertain),
                           OfState(Resolved))])
  {
    StepAdds(h, k, id, casefold);
    PriorIs(h, k, id, j, p, casefold);
    TrackedId(h[..k], id, casefold);
    AbsentIsNotFound(h[k], id);
    hide Books, Find, Track, LastReported, StoredComplete, ProvedBetween, MissEvents, StampAll, Absent,
      WellFormedReports;
    StampedMiss(Track(h[..k], id, casefold).value, h[k], casefold);
  }

  /** A finding no report has held yet has no events. */
  lemma NothingBooked(h: History, k: nat, id: FindingId, casefold: string -> string)
    requires WellFormedReports(h) && k < |h| && forall i :: 0 <= i <= k ==> Absent(h[i], id)
    ensures Books(h, k, id, casefold, [])
  {
    StepAdds(h, k, id, casefold);
    NeverReported(h, k, id, casefold);
    AbsentIsNotFound(h[k], id);
    hide Books, Find, Track;
    assert StampAll([], h[k]) == [];
  }

  // ----- the same over a whole run

  /** What an event of each kind carries. */
  predicate Carries(e: Event) {
    match e.kind
    case FirstSeen => e.previous == NoValue && e.current == NoValue
    case Seen => e.previous == NoValue && e.current == NoValue
    case Reopened => e.previous == NoValue && e.current == NoValue
    case ResolvedEvent =>
      e.current == OfState(Resolved) && (e.previous == OfState(Active) || e.previous == OfState(ResolutionUncertain))
    case SeverityChanged => e.previous.OfSeverity? && e.current.OfSeverity? && e.previous != e.current
    case AssessmentStateChanged => e.previous.OfAssessment? && e.current.OfAssessment? && e.previous != e.current
    case KindChanged => e.previous.OfKind? && e.current.OfKind? && e.previous != e.current
  }

  lemma ObserveCarries(prior: Option<Summary>, o: Occurrence, e: Event)
    requires e in ObserveEvents(prior, o)
    ensures Carries(e)
  {
  }

  lemma MissCarries(s: Summary, r: Report, e: Event, casefold: string -> string)
    requires e in MissEvents(s, r, casefold)
    ensures Carries(e)
  {
    hide Proves;
  }

  lemma {:induction false} TrackCarries(h: History, id: FindingId, casefold: string -> string, e: Event)
    requires e in TrackEvents(h, id, casefold)
    ensures Carries(e)
  {
    var init, r := h[..|h| - 1], h[|h| - 1];
    var added := TrackStepEvents(Track(init, id, casefold), r, id, casefold);
    StampAt(added, r);
    if e in TrackEvents(init, id, casefold) {
      TrackCarries(init, id, casefold, e);
    } else {
      hide Track, TrackEvents, StampAll, Find, ObserveEvents, MissEvents, Carries;
      var i :| 0 <= i < |added| && e == StampEvent(added[i], r);
      var prior, o := Track(init, id, casefold), Find(r.occurrences, id);
      if o.Some? { ObserveCarries(prior, o.value, added[i]); } else { MissCarries(prior.value, r, added[i], casefold); }
      StampingCarries(added[i], r);
    }
  }

  lemma StampingCarries(e: Event, r: Report)
    requires Carries(e)
    ensures Carries(StampEvent(e, r))
  {
  }

  /** Every event of every run carries the values of its kind. */
  lemma EventsCarry(h: History, casefold: string -> string, e: Event)
    requires WellFormedReports(h) && e in EventsAfter(h, casefold)
    ensures Carries(e)
  {
    hide EventsAfter, StatesAfter, TrackEvents, Track, Carries, WellFormedReports;
    FindingsAreIndependent(h, casefold, e.findingId);
    InOfFinding(EventsAfter(h, casefold), e);
    TrackCarries(h, e.findingId, casefold, e);
  }

  /** The events of a run that are stamped with a report are those the report books. */
  lemma {:induction false} StampedByReport(h: History, k: nat, id: FindingId, casefold: string -> string,
                                           es: seq<Event>,
                                           e: Event)
    requires WellFormed(h) && k < |h| && Books(h, k, id, casefold, es)
    requires e.findingId == id && e.stamp == Stamped(h[k].reportId, h[k].generatedAt)
    ensures e in EventsAfter(h, casefold) <==> e in es
  {
    hide EventsAfter, TrackStepEvents, Track, StampAll, WellFormedReport, Books, OfFinding;
    if k == |h| - 1 {
      StampedByLast(h, casefold, es, e);
    } else {
      var init := h[..|h| - 1];
      BooksInPrefix(h, k, id, casefold, es);
      PrefixStaysWellFormed(h);
      StampedByReport(init, k, id, casefold, es, e);
      NotAddedByLast(h, casefold, e);
    }
  }

  lemma BooksInPrefix(h: History, k: nat, id: FindingId, casefold: string -> string, es: seq<Event>)
    requires k < |h| - 1 && Books(h, k, id, casefold, es)
    ensures Books(h[..|h| - 1], k, id, casefold, es) && h[..|h| - 1][k] == h[k]
  {
    hide EventsAfter, OfFinding;
    var init := h[..|h| - 1];
    assert init[..k + 1] == h[..k + 1] && init[..k] == h[..k];
  }

  lemma StampedByLast(h: History, casefold: string -> string, es: seq<Event>, e: Event)
    requires WellFormed(h) && h != [] && Books(h, |h| - 1, e.findingId, casefold, es)
    requires e.stamp == Stamped(h[|h| - 1].reportId, h[|h| - 1].generatedAt)
    ensures e in EventsAfter(h, casefold) <==> e in es
  {
    assert h[..|h|] == h;
    EventsOfFinding(EventsAfter(h, casefold), e);
    EventsOfFinding(EventsAfter(h[..|h| - 1], casefold), e);
    EarlierAreNotStamped(h, casefold, e);
    hide EventsAfter, OfFinding, WellFormed;
  }

  lemma NotAddedByLast(h: History, casefold: string -> string, e: Event)
    requires WellFormed(h) && h != [] && e.stamp.Stamped? && e.stamp.reportId != h[|h| - 1].reportId
    ensures e in EventsAfter(h, casefold) <==> e in EventsAfter(h[..|h| - 1], casefold)
  {
    var init := h[..|h| - 1];
    var drafts := TrackStepEvents(Track(init, e.findingId, casefold), h[|h| - 1], e.findingId, casefold);
    LastReportBooks(h, e.findingId, casefold);
    AddedAreStamped(drafts, h[|h| - 1]);
    EventsOfFinding(EventsAfter(h, casefold), e);
    EventsOfFinding(EventsAfter(init, casefold), e);
    hide EventsAfter, OfFinding, TrackStepEvents, Track, StampAll, WellFormed;
  }

  lemma PrefixStaysWellFormed(h: History)
    requires WellFormed(h) && h != []
    ensures WellFormed(h[..|h| - 1])
  {
    hide WellFormedReport;
  }

  lemma LastReportBooks(h: History, id: FindingId, casefold: string -> string)
    requires WellFormed(h) && h != []
    ensures OfFinding(EventsAfter(h, casefold), id)
      == OfFinding(EventsAfter(h[..|h| - 1], casefold), id)
         + StampAll(TrackStepEvents(Track(h[..|h| - 1], id, casefold), h[|h| - 1], id, casefold), h[|h| - 1])
  {
    assert h[..|h|] == h;
    hide EventsAfter, TrackStepEvents, Track, StampAll, OfFinding, WellFormedReport;
    StepAdds(h, |h| - 1, id, casefold);
  }

  lemma AddedAreStamped(es: seq<Event>, r: Report)
    ensures forall e :: e in StampAll(es, r) ==> e.stamp == Stamped(r.reportId, r.generatedAt)
  {
    StampAt(es, r);
    hide StampAll;
  }

  lemma EventsOfFinding(es: seq<Event>, e: Event)
    ensures e in OfFinding(es, e.findingId) <==> e in es
  {
    if e in es { InOfFinding(es, e); }
    OnlyFromEvents(es, e);
  }

  lemma {:induction false} OnlyFromEvents(es: seq<Event>, e: Event)
    ensures e in OfFinding(es, e.findingId) ==> e in es
  {
    if es != [] { OnlyFromEvents(es[..|es| - 1], e); }
  }

  lemma EarlierAreNotStamped(h: History, casefold: string -> string, e: Event)
    requires WellFormed(h) && h != [] && e.stamp == Stamped(h[|h| - 1].reportId, h[|h| - 1].generatedAt)
    ensures e !in EventsAfter(h[..|h| - 1], casefold)
  {
    var init := h[..|h| - 1];
    EventKeysDistinct(init, casefold);
    hide EventsAfter, WellFormedReport;
    forall i | 0 <= i < |init| ensures init[i].reportId != h[|h| - 1].reportId {
      assert init[i] == h[i];
    }
  }
}
