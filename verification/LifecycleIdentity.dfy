/** Every derived event has a key, and an id, of its own. */
module LifecycleIdentity {
  import opened Common
  import opened Orders
  import opened Text
  import opened Lifecycle
  import opened LifecycleLaws

  predicate SamePair(a: Event, b: Event) {
    a.findingId == b.findingId && a.kind == b.kind
  }

  ghost predicate PairsDistinct(es: seq<Event>) {
    forall i, j :: 0 <= i < j < |es| ==> !SamePair(es[i], es[j])
  }

  lemma PairsConcat(a: seq<Event>, b: seq<Event>)
    requires PairsDistinct(a) && PairsDistinct(b)
    requires forall x, y :: x in a && y in b ==> !SamePair(x, y)
    ensures PairsDistinct(a + b)
  {
  }

  lemma ObserveEventsPairs(prior: Option<Summary>, o: Occurrence)
    requires prior.Some? ==> prior.value.findingId == o.findingId
    ensures PairsDistinct(ObserveEvents(prior, o))
    ensures forall e :: e in ObserveEvents(prior, o) ==> e.findingId == o.findingId
  {
    ObserveEventsOf(prior, o);
    if prior.Some? {
      var s := prior.value;
      var a := Change(s.findingId, SeverityChanged, OfSeverity(s.severity), OfSeverity(o.severity));
      var b := Change(s.findingId, AssessmentStateChanged, OfAssessment(s.assessment), OfAssessment(o.assessment));
      var c := Change(s.findingId, KindChanged, OfKind(s.kind), OfKind(o.kind));
      PairsConcat(SeenAgain(s), a);
      PairsConcat(SeenAgain(s) + a, b);
      hide PairsDistinct;
      PairsConcat(SeenAgain(s) + a + b, c);
      assert ObserveEvents(prior, o) == SeenAgain(s) + a + b + c by { hide Change; }
    }
  }

  ghost predicate Among(es: seq<Event>, occurrences: seq<Occurrence>) {
    forall e :: e in es ==> Find(occurrences, e.findingId).Some?
  }

  lemma {:induction false} ObservedPairs(states: States, occurrences: seq<Occurrence>)
    requires Keyed(states) && DistinctOccurrences(occurrences)
    ensures PairsDistinct(ObservedEvents(states, occurrences))
    ensures Among(ObservedEvents(states, occurrences), occurrences)
  {
    if occurrences != [] {
      var init, o := occurrences[..|occurrences| - 1], occurrences[|occurrences| - 1];
      ObservedPairs(states, init);
      ObservedOne(states, init, o.findingId);
      FindMeans(init, o.findingId);
      assert Find(init, o.findingId).None?;
      var prior := Get(Observed(states, init), o.findingId);
      ObserveEventsPairs(prior, o);
      hide ObserveEvents, Observed, PairsDistinct, DistinctOccurrences;
      var a, b := ObservedEvents(states, init), ObserveEvents(prior, o);
      PairsConcat(a, b);
      assert ObservedEvents(states, occurrences) == a + b;
      hide ObservedEvents;
    }
  }

  lemma {:induction false} MissedPairs(states: States, ids: seq<FindingId>, r: Report, casefold: string -> string)
    requires Keyed(states) && Distinct(ids)
    ensures PairsDistinct(MissedEvents(states, ids, r, casefold))
    ensures forall e :: e in MissedEvents(states, ids, r, casefold) ==> e.findingId in ids && !Present(r, e.findingId)
  {
    hide Present, Proves;
    if ids != [] {
      var init, last := ids[..|ids| - 1], ids[|ids| - 1];
      assert ids == init + [last] && last !in init;
      MissedPairs(states, init, r, casefold);
      MissedOne(states, init, r, casefold, last);
      var before := Missed(states, init, r, casefold);
      var added := if last in before && !Present(r, last) then MissEvents(before[last], r, casefold) else [];
      assert PairsDistinct(added) && forall e :: e in added ==> e.findingId == last;
      hide Missed, PairsDistinct, MissEvents;
      PairsConcat(MissedEvents(states, init, r, casefold), added);
    }
  }

  lemma StepPairs(states: States, r: Report, casefold: string -> string)
    requires Keyed(states) && WellFormedReport(r)
    ensures PairsDistinct(StepEvents(states, r, casefold))
  {
    var seen := Observed(states, r.occurrences);
    ObservedPairs(states, r.occurrences);
    forall id { ObservedOne(states, r.occurrences, id); }
    StrLeIsTotal();
    ListingFacts(seen.Keys, StrLe);
    MissedPairs(seen, SortedIds(seen), r, casefold);
    hide Observed, ObservedEvents, MissedEvents, StrLe, SortedIds, Find, PairsDistinct;
    var a, b := ObservedEvents(states, r.occurrences), MissedEvents(seen, SortedIds(seen), r, casefold);
    forall x, y | x in a && y in b ensures !SamePair(x, y) {
      FindMeans(r.occurrences, x.findingId);
    }
    PairsConcat(a, b);
  }

  /** Stamped with a report of the history. */
  ghost predicate Booked(e: Event, h: History) {
    exists k :: 0 <= k < |h| && e.stamp == Stamped(h[k].reportId, h[k].generatedAt)
  }

  ghost predicate KeysDistinct(es: seq<Event>) {
    forall i, j :: 0 <= i < j < |es| ==> !(SamePair(es[i], es[j]) && es[i].stamp == es[j].stamp)
  }

  lemma KeysConcat(a: seq<Event>, b: seq<Event>)
    requires KeysDistinct(a) && KeysDistinct(b)
    requires forall x, y :: x in a && y in b ==> x.stamp != y.stamp
    ensures KeysDistinct(a + b)
  {
  }

  lemma StampedPairs(es: seq<Event>, r: Report)
    requires PairsDistinct(es)
    ensures KeysDistinct(StampAll(es, r))
    ensures forall e :: e in StampAll(es, r) ==> e.stamp == Stamped(r.reportId, r.generatedAt)
  {
    StampAt(es, r);
    hide StampAll;
  }

  ghost predicate DistinctReports(h: History) {
    forall i, j :: 0 <= i < j < |h| ==> h[i].reportId != h[j].reportId
  }

  /** No two events share report, finding and type, and each is booked on a report of the history. */
  lemma {:induction false} EventKeysDistinct(h: History, casefold: string -> string)
    requires WellFormedReports(h) && DistinctReports(h)
    ensures KeysDistinct(EventsAfter(h, casefold))
    ensures forall e :: e in EventsAfter(h, casefold) ==> Booked(e, h)
  {
    if h != [] {
      var init, r := h[..|h| - 1], h[|h| - 1];
      assert forall i :: 0 <= i < |init| ==> init[i] == h[i];
      EventKeysDistinct(init, casefold);
      FindingsAreIndependent(init, casefold, "");
      assert WellFormedReport(r);
      var states := StatesAfter(init, casefold);
      StepPairs(states, r, casefold);
      StampedPairs(StepEvents(states, r, casefold), r);
      hide StepEvents, StepStates, StampAll, KeysDistinct, WellFormedReport, PairsDistinct;
      var a, b := EventsAfter(init, casefold), StampAll(StepEvents(states, r, casefold), r);
      forall x, y | x in a && y in b ensures x.stamp != y.stamp {
        var k :| 0 <= k < |init| && x.stamp == Stamped(init[k].reportId, init[k].generatedAt);
        assert h[k].reportId != h[|h| - 1].reportId;
      }
      KeysConcat(a, b);
      forall e | e in a + b ensures Booked(e, h) {
        if e in a {
          var k :| 0 <= k < |init| && e.stamp == Stamped(init[k].reportId, init[k].generatedAt);
          assert h[k] == init[k];
        }
      }
    }
  }

  function TypeName(kind: EventType): string {
    match kind
    case FirstSeen => "FIRST_SEEN"
    case Seen => "SEEN"
    case Reopened => "REOPENED"
    case ResolvedEvent => "RESOLVED"
    case SeverityChanged => "SEVERITY_CHANGED"
    case AssessmentStateChanged => "ASSESSMENT_STATE_CHANGED"
    case KindChanged => "KIND_CHANGED"
  }

  lemma TypeNamesDiffer(a: EventType, b: EventType)
    ensures TypeName(a) == TypeName(b) ==> a == b
    ensures NulFree(TypeName(a))
  {
  }

  function EventKey(system: string, e: Event): seq<string>
    requires e.stamp.Stamped?
  {
    [system, e.stamp.reportId, e.findingId, TypeName(e.kind)]
  }

  function EventId(system: string, e: Event, text: TextServices): string
    requires e.stamp.Stamped?
  {
    text.OpaqueId("event", EventKey(system, e))
  }

  /** The texts whose digests name the events of a system. */
  ghost function EventTexts(system: string, es: seq<Event>): set<string> {
    set e | e in es && e.stamp.Stamped? :: NulJoin(EventKey(system, e))
  }

  lemma JoinOfFour(s: string, r: string, f: string, t: string)
    ensures NulJoin([s, r, f, t]) == s + ['\0'] + r + ['\0'] + f + ['\0'] + t
  {
    assert [s, r, f, t][1..] == [r, f, t] && [r, f, t][1..] == [f, t] && [f, t][1..] == [t];
    assert NulJoin([t]) == t && NulJoin([f, t]) == f + ['\0'] + t && NulJoin([r, f, t]) == r + ['\0'] + NulJoin([f, t]);
  }

  /** The id of an event determines its system, report, finding and type, whatever the system's text. */
  lemma EventIdDetermines(inputs: set<string>, s: string, x: Event, s': string, y: Event, text: TextServices)
    requires x.stamp.Stamped? && y.stamp.Stamped? && text.CollisionFree(inputs)
    requires NulJoin(EventKey(s, x)) in inputs && NulJoin(EventKey(s', y)) in inputs
    requires NulFree(x.stamp.reportId) && NulFree(y.stamp.reportId) && NulFree(x.findingId) && NulFree(y.findingId)
    requires EventId(s, x, text) == EventId(s', y, text)
    ensures s == s' && SamePair(x, y) && x.stamp.reportId == y.stamp.reportId
  {
    TypeNamesDiffer(x.kind, y.kind);
    TypeNamesDiffer(y.kind, x.kind);
    hide TypeName;
    var r, f, t := x.stamp.reportId, x.findingId, TypeName(x.kind);
    var r', f', t' := y.stamp.reportId, y.findingId, TypeName(y.kind);
    text.OpaqueIdDeterminesText(inputs, "event", [s, r, f, t], [s', r', f', t']);
    JoinOfFour(s, r, f, t);
    JoinOfFour(s', r', f', t');
    hide NulJoin, NulFree;
    SplitAtLastNul(s + ['\0'] + r + ['\0'] + f, t, s' + ['\0'] + r' + ['\0'] + f', t');
    SplitAtLastNul(s + ['\0'] + r, f, s' + ['\0'] + r', f');
    SplitAtLastNul(s, r, s', r');
  }

  lemma BookedOnce(h: History, x: Event, y: Event)
    requires DistinctReports(h) && Booked(x, h) && Booked(y, h)
    ensures x.stamp.Stamped? && y.stamp.Stamped?
    ensures x.stamp.reportId == y.stamp.reportId ==> x.stamp == y.stamp
  {
  }

  /** Primary keys of events are unique: no two derived events have the same digest. */
  lemma EventIdsDistinct(h: History, system: string, text: TextServices, i: nat, j: nat)
    requires WellFormedReports(h) && DistinctReports(h)
    requires text.CollisionFree(EventTexts(system, EventsAfter(h, text.casefold)))
    requires forall k :: 0 <= k < |h| ==> NulFree(h[k].reportId)
    requires forall e :: e in EventsAfter(h, text.casefold) ==> NulFree(e.findingId)
    requires i < j < |EventsAfter(h, text.casefold)|
    ensures EventsAfter(h, text.casefold)[i].stamp.Stamped? && EventsAfter(h, text.casefold)[j].stamp.Stamped?
    ensures EventId(system, EventsAfter(h, text.casefold)[i], text)
      != EventId(system, EventsAfter(h, text.casefold)[j], text)
  {
    EventKeysDistinct(h, text.casefold);
    hide EventsAfter, WellFormedReport;
    var es := EventsAfter(h, text.casefold);
    var x, y := es[i], es[j];
    BookedOnce(h, x, y);
    if EventId(system, x, text) == EventId(system, y, text) {
      hide NulJoin, EventKey;
      EventIdDetermines(EventTexts(system, es), system, x, system, y, text);
    }
  }
}
