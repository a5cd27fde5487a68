/** What the derived tables must show for a ledger, and what keeps it so. */
module MemoryInvariant {
  import opened Orders
  import opened Text
  import opened Lifecycle
  import opened LifecycleLaws
  import opened LifecycleIdentity
  import opened MemoryModel
  import opened MemoryTables

  // ----- fact tables grow with the ledger

  lemma FreshId(a: Ledger, x: Submission, text: TextServices)
    requires Sound(a) && KeysApart(a + {x}, text) && IsHexDigest(x.digest) && !Known(a, x.digest)
    ensures !IdIn(a, IdOf(x, text), text)
  {
    hide IsHexDigest, Acceptable, ReportIdOf, NulJoin, TextServices.CollisionFree;
    if IdIn(a, IdOf(x, text), text) {
      var y :| y in a && IdOf(y, text) == IdOf(x, text);
      ReportTextIn(a + {x}, x);
      ReportTextIn(a + {x}, y);
      ReportIdDetermines(ReportTexts(a + {x}), x.system, x.digest, y.system, y.digest, text);
    }
  }

  lemma RowIdIn(a: Ledger, row: ReportRow, text: TextServices)
    requires RowIn(a, row, text)
    ensures IdIn(a, row.reportId, text)
  {
  }

  lemma ReportFactsExtend(t: Tables, t': Tables, a: Ledger, x: Submission, text: TextServices)
    requires ReportFacts(t, a, text) && !IdIn(a, IdOf(x, text), text)
    requires t'.reports == t.reports + [RowOf(x, text)]
    ensures ReportFacts(t', a + {x}, text)
  {
    hide ReportIdOf;
    forall row | row in t.reports ensures row.reportId != IdOf(x, text) {
      assert RowIn(a, row, text);
      RowIdIn(a, row, text);
    }
    assert RowOf(x, text).reportId == IdOf(x, text);
    forall row | row in t'.reports ensures RowIn(a + {x}, row, text) {
      if row in t.reports {
        assert RowIn(a, row, text);
        var y :| y in a && RowOf(y, text) == row;
        assert y in a + {x};
      }
    }
  }

  lemma OccurrenceFactsExtend(t: Tables, t': Tables, a: Ledger, x: Submission, text: TextServices)
    requires OccurrenceFacts(t, a, text) && !IdIn(a, IdOf(x, text), text)
    requires t'.occurrences == t.occurrences + OccurrenceRowsOf(x, x.findings, text)
    ensures OccurrenceFacts(t', a + {x}, text)
  {
    hide IdOf, OccurrenceRowsOf, RowsFor;
    var added := OccurrenceRowsOf(x, x.findings, text);
    OccurrenceRowsAt(x, x.findings, text);
    forall y | y in a + {x}
      ensures RowsFor(t'.occurrences, y.system, IdOf(y, text)) == OccurrenceRowsOf(y, y.findings, text)
    {
      RowsForConcat(t.occurrences, added, y.system, IdOf(y, text));
      RowsForUniform(added, y.system, IdOf(y, text));
      RowsForUniform(t.occurrences, y.system, IdOf(y, text));
      if y in a {
        assert IdIn(a, IdOf(y, text), text);
      } else {
        assert y == x;
        assert forall o :: o in t.occurrences ==> o.reportId != IdOf(x, text);
      }
    }
    forall o | o in t'.occurrences ensures IdIn(a + {x}, o.reportId, text) {
      if o in t.occurrences {
        assert IdIn(a, o.reportId, text);
        var y :| y in a && IdOf(y, text) == o.reportId;
        assert y in a + {x};
      } else {
        assert o in added;
      }
    }
  }

  lemma ScoreFactsExtend(t: Tables, t': Tables, a: Ledger, x: Submission, text: TextServices)
    requires ScoreFacts(t, a, text) && !IdIn(a, IdOf(x, text), text)
    requires t'.scores == t.scores[IdOf(x, text) := ScoreRowOf(x)]
    ensures ScoreFacts(t', a + {x}, text)
  {
    hide IdOf;
    forall y | y in a ensures IdOf(y, text) != IdOf(x, text) {
      assert IdIn(a, IdOf(y, text), text);
    }
    forall id | id in t'.scores ensures IdIn(a + {x}, id, text) {
      if id in t.scores {
        assert IdIn(a, id, text);
        var y :| y in a && IdOf(y, text) == id;
        assert y in a + {x};
      }
    }
  }

  lemma FactsExtend(t: Tables, t': Tables, a: Ledger, x: Submission, text: TextServices)
    requires Facts(t, a, text) && KeysApart(a + {x}, text) && IsHexDigest(x.digest) && !Known(a, x.digest)
      && Acceptable(x)
    requires t'.reports == t.reports + [RowOf(x, text)]
    requires t'.scores == t.scores[IdOf(x, text) := ScoreRowOf(x)]
    requires t'.occurrences == t.occurrences + OccurrenceRowsOf(x, x.findings, text)
    ensures Facts(t', a + {x}, text)
  {
    AcceptKeepsSound(a, x);
    hide IdOf, OccurrenceRowsOf, ReportFacts, OccurrenceFacts, ScoreFacts, IsHexDigest, Sound, KeysApart;
    FreshId(a, x, text);
    ReportFactsExtend(t, t', a, x, text);
    OccurrenceFactsExtend(t, t', a, x, text);
    ScoreFactsExtend(t, t', a, x, text);
  }

  // ----- derived tables

  function FindingRowOf(s: Summary): FindingRow {
    FindingRow(s, s.state == Active, s.count >= 2)
  }

  function EventRowOf(system: string, e: Event, text: TextServices): EventRow {
    EventRow(if e.stamp.Stamped? then EventId(system, e, text) else "", system, e)
  }

  function EventRowsOf(system: string, es: seq<Event>, text: TextServices): seq<EventRow> {
    seq(|es|, i requires 0 <= i < |es| => EventRowOf(system, es[i], text))
  }

  function EventsFor(rows: seq<EventRow>, system: string): seq<EventRow> {
    if rows == [] then []
    else
      var last := rows[|rows| - 1];
      EventsFor(rows[..|rows| - 1], system) + (if last.system == system then [last] else [])
  }

  /** The events of all other systems. */
  function EventsExcept(rows: seq<EventRow>, system: string): seq<EventRow> {
    if rows == [] then []
    else
      var last := rows[|rows| - 1];
      EventsExcept(rows[..|rows| - 1], system) + (if last.system == system then [] else [last])
  }

  ghost function StatesIn(a: Ledger, system: string, text: TextServices): States {
    StatesAfter(HistoryIn(a, system, text), text.casefold)
  }

  ghost function EventsIn(a: Ledger, system: string, text: TextServices): seq<Event> {
    EventsAfter(HistoryIn(a, system, text), text.casefold)
  }

  ghost predicate FindingsShow(t: Tables, states: States, system: string) {
    forall id ::
      && ((system, id) in t.findings <==> id in states)
      && ((system, id) in t.findings ==> t.findings[(system, id)] == FindingRowOf(states[id]))
  }

  ghost predicate EventsShow(t: Tables, es: seq<Event>, system: string, text: TextServices) {
    EventsFor(t.events, system) == EventRowsOf(system, es, text)
  }

  /** The derived rows of a system are the derivation of its submissions. */
  ghost predicate Derived(t: Tables, a: Ledger, system: string, text: TextServices) {
    FindingsShow(t, StatesIn(a, system, text), system) && EventsShow(t, EventsIn(a, system, text), system, text)
  }

  /** The store invariant. */
  ghost predicate Holds(t: Tables, a: Ledger, text: TextServices) {
    Facts(t, a, text) && forall system :: Derived(t, a, system, text)
  }

  lemma {:induction false} EventsForConcat(a: seq<EventRow>, b: seq<EventRow>, system: string)
    ensures EventsFor(a + b, system) == EventsFor(a, system) + EventsFor(b, system)
  {
    if b == [] {
      assert a + b == a;
    } else {
      assert (a + b)[..|a + b| - 1] == a + b[..|b| - 1];
      EventsForConcat(a, b[..|b| - 1], system);
    }
  }

  lemma {:induction false} EventsForUniform(rows: seq<EventRow>, system: string)
    ensures (forall r :: r in rows ==> r.system == system) ==> EventsFor(rows, system) == rows
    ensures (forall r :: r in rows ==> r.system != system) ==> EventsFor(rows, system) == []
  {
    if rows != [] {
      assert rows == rows[..|rows| - 1] + [rows[|rows| - 1]];
      EventsForUniform(rows[..|rows| - 1], system);
    }
  }

  lemma {:induction false} EventsExceptFor(rows: seq<EventRow>, gone: string, system: string)
    ensures EventsFor(EventsExcept(rows, gone), system) == if system == gone then [] else EventsFor(rows, system)
  {
    if rows != [] {
      var init, last := rows[..|rows| - 1], rows[|rows| - 1];
      EventsExceptFor(init, gone, system);
      if last.system != gone {
        EventsForConcat(EventsExcept(init, gone), [last], system);
        EventsForUniform([last], system);
      } else {
        assert EventsExcept(rows, gone) == EventsExcept(init, gone);
      }
    }
  }

  lemma RowsBelong(system: string, es: seq<Event>, text: TextServices)
    ensures forall r :: r in EventRowsOf(system, es, text) ==> r.system == system
  {
  }

  /** Replacing the events of one system leaves all others alone. */
  lemma EventsReplaced(rows: seq<EventRow>, system: string, es: seq<Event>, text: TextServices, other: string)
    ensures EventsFor(EventsExcept(rows, system) + EventRowsOf(system, es, text), other)
      == if other == system then EventRowsOf(system, es, text) else EventsFor(rows, other)
  {
    RowsBelong(system, es, text);
    hide EventRowsOf, EventsFor, EventsExcept;
    EventsForConcat(EventsExcept(rows, system), EventRowsOf(system, es, text), other);
    EventsExceptFor(rows, system, other);
    EventsForUniform(EventRowsOf(system, es, text), other);
  }

  // ----- which findings a system has

  ghost predicate HasFinding(fs: seq<Finding>, id: FindingId) {
    exists f :: f in fs && f.findingId == id
  }

  lemma ReportHasFinding(x: Submission, text: TextServices, id: FindingId)
    ensures InReport(ToReport(x, text), id) <==> HasFinding(x.findings, id)
  {
    var os := OccurrencesOf(x.findings, x.generatedAt);
    OccurrencesAt(x.findings, x.generatedAt);
    SortIsPermutation(os, OccurrenceLe);
    FindMeans(Sort(os, OccurrenceLe), id);
    hide Find, Sort, OccurrenceLe, OccurrencesOf, ReportIdOf;
    if HasFinding(x.findings, id) {
      var i :| 0 <= i < |x.findings| && x.findings[i].findingId == id;
      assert os[i] in os;
    }
    if o :| o in os && o.findingId == id {
      var i :| 0 <= i < |os| && os[i] == o;
      assert x.findings[i] in x.findings;
    }
  }

  ghost predicate Reported(a: Ledger, system: string, id: FindingId) {
    exists x :: x in a && x.system == system && HasFinding(x.findings, id)
  }

  lemma TrackedIff(h: History, casefold: string -> string, id: FindingId)
    requires WellFormedReports(h)
    ensures id in StatesAfter(h, casefold) <==> exists r :: r in h && InReport(r, id)
  {
    FindingsAreIndependent(h, casefold, id);
    LifecycleClosedForm(h, id, casefold);
    hide StatesAfter, EventsAfter, Track, TrackEvents, InReport, OfFinding;
    var k := FirstIn(h, id);
    if k >= 0 { assert h[k] in h; }
  }

  /** A system has a finding iff one of its submissions does. */
  lemma FindingsAreReported(a: Ledger, system: string, text: TextServices, id: FindingId)
    requires Sound(a) && KeysApart(a, text)
    ensures id in StatesIn(a, system, text) <==> Reported(a, system, id)
  {
    var h := HistoryIn(a, system, text);
    HistoryIsWellFormed(a, system, text);
    hide HistoryIn, StatesAfter, Sound, InReport, ToReport, HasFinding, WellFormedReport;
    TrackedIff(h, text.casefold, id);
    forall x | x in a && x.system == system ensures InReport(ToReport(x, text), id) <==> HasFinding(x.findings, id) {
      ReportHasFinding(x, text, id);
    }
    if Reported(a, system, id) {
      var x :| x in a && x.system == system && HasFinding(x.findings, id);
      assert ToReport(x, text) in ReportsIn(a, system, text);
    }
  }

  /** Fewer reports have no more digests to keep apart. */
  lemma KeysStayApart(a: Ledger, b: Ledger, text: TextServices)
    requires a <= b && KeysApart(b, text)
    ensures KeysApart(a, text)
  {
    hide NulJoin, TextServices.Valid;
    forall u | u in ReportTexts(a) ensures u in ReportTexts(b) {
    }
  }

  lemma FindingsGrow(a: Ledger, x: Submission, text: TextServices, id: FindingId)
    requires Sound(a) && Sound(a + {x}) && KeysApart(a + {x}, text)
    ensures id in StatesIn(a + {x}, x.system, text) <==> id in StatesIn(a, x.system, text) || HasFinding(x.findings, id)
  {
    KeysStayApart(a, a + {x}, text);
    FindingsAreReported(a, x.system, text, id);
    FindingsAreReported(a + {x}, x.system, text, id);
    hide StatesIn, Sound, HasFinding;
  }

  lemma OtherSystemsKeepHistory(a: Ledger, x: Submission, system: string, text: TextServices)
    requires system != x.system
    ensures HistoryIn(a + {x}, system, text) == HistoryIn(a, system, text)
  {
    assert ReportsIn(a + {x}, system, text) == ReportsIn(a, system, text);
  }

  /** The findings table after the writes and the rebuild of one submission. */
  ghost predicate FindingsRebuilt(t: Tables, t': Tables, x: Submission, states: States) {
    && (forall system, id ::
          (system, id) in t'.findings <==>
            (system, id) in t.findings || (system == x.system && HasFinding(x.findings, id)))
    && (forall system, id :: (system, id) in t'.findings ==>
          t'.findings[(system, id)] ==
            if system == x.system && id in states then FindingRowOf(states[id])
            else if (system, id) in t.findings then t.findings[(system, id)]
            else t'.findings[(system, id)])
  }

  lemma FindingsStayDerived(t: Tables, t': Tables, a: Ledger, x: Submission, system: string, text: TextServices)
    requires Sound(a) && Sound(a + {x}) && KeysApart(a + {x}, text)
    requires FindingsShow(t, StatesIn(a, system, text), system)
    requires FindingsRebuilt(t, t', x, StatesIn(a + {x}, x.system, text))
    ensures FindingsShow(t', StatesIn(a + {x}, system, text), system)
  {
    hide Sound, HistoryIn, StatesAfter, HasFinding, FindingRowOf;
    if system == x.system {
      forall id
        ensures id in StatesIn(a + {x}, x.system, text)
          <==> id in StatesIn(a, x.system, text) || HasFinding(x.findings, id)
      {
        FindingsGrow(a, x, text, id);
      }
    } else {
      OtherSystemsKeepHistory(a, x, system, text);
    }
    hide StatesIn;
  }

  /** One accepted submission, written and rebuilt, takes a store of a to a store of a + {x}. */
  lemma HoldsExtends(t: Tables, t': Tables, a: Ledger, x: Submission, text: TextServices)
    requires Holds(t, a, text) && KeysApart(a + {x}, text) && Sound(a + {x}) && Facts(t', a + {x}, text)
    requires FindingsRebuilt(t, t', x, StatesIn(a + {x}, x.system, text))
    requires t'.events
      == EventsExcept(t.events, x.system) + EventRowsOf(x.system, EventsIn(a + {x}, x.system, text), text)
    ensures Holds(t', a + {x}, text)
  {
    assert Sound(a);
    hide Sound, StatesAfter, EventsAfter, HistoryIn, FindingsShow, FindingsRebuilt, EventRowsOf, EventsFor,
      EventsExcept, ReportFacts, OccurrenceFacts, ScoreFacts, Facts;
    forall system ensures Derived(t', a + {x}, system, text) {
      assert Derived(t, a, system, text);
      FindingsStayDerived(t, t', a, x, system, text);
      EventsReplaced(t.events, x.system, EventsIn(a + {x}, x.system, text), text, system);
      if system != x.system { OtherSystemsKeepHistory(a, x, system, text); }
    }
  }

  // ----- what follows for every store

  /** Two stores of the same ledger show the same findings and the same events, for every system. */
  lemma StoresAgree(t: Tables, u: Tables, a: Ledger, text: TextServices, system: string, id: FindingId)
    requires Holds(t, a, text) && Holds(u, a, text)
    ensures (system, id) in t.findings <==> (system, id) in u.findings
    ensures (system, id) in t.findings ==> t.findings[(system, id)] == u.findings[(system, id)]
    ensures EventsFor(t.events, system) == EventsFor(u.events, system)
  {
    assert Derived(t, a, system, text) && Derived(u, a, system, text);
    hide Facts, StatesIn, EventsIn, EventRowsOf, EventsFor, FindingRowOf;
  }

  lemma {:induction false} UntrackedHasNoEvents(h: History, id: FindingId, casefold: string -> string)
    requires FirstIn(h, id) < 0
    ensures Track(h, id, casefold).None? && TrackEvents(h, id, casefold) == []
  {
    if h != [] {
      var init := h[..|h| - 1];
      assert FirstIn(init, id) < 0;
      UntrackedHasNoEvents(init, id, casefold);
      hide Find;
      assert StampAll([], h[|h| - 1]) == [];
    }
  }

  /** Every derived event is about a finding of some submission of its system. */
  lemma EventsAreReported(a: Ledger, system: string, text: TextServices, e: Event)
    requires Sound(a) && KeysApart(a, text) && e in EventsIn(a, system, text)
    ensures Reported(a, system, e.findingId)
  {
    var h := HistoryIn(a, system, text);
    HistoryIsWellFormed(a, system, text);
    FindingsAreReported(a, system, text, e.findingId);
    hide HistoryIn, Sound, WellFormedReport, Reported;
    FindingsAreIndependent(h, text.casefold, e.findingId);
    InOfFinding(EventsIn(a, system, text), e);
    LifecycleClosedForm(h, e.findingId, text.casefold);
    hide StatesAfter, EventsAfter, Track, TrackEvents, OfFinding;
    if FirstIn(h, e.findingId) < 0 { UntrackedHasNoEvents(h, e.findingId, text.casefold); }
  }

  ghost predicate PlainIds(a: Ledger) {
    forall x, f :: x in a && f in x.findings ==> NulFree(f.findingId)
  }

  ghost predicate KeysDiffer(rows: seq<EventRow>) {
    forall i, j :: 0 <= i < j < |rows| ==> rows[i].eventId != rows[j].eventId
  }

  lemma HexIsNulFree(x: Submission, text: TextServices)
    requires text.Valid()
    ensures NulFree(IdOf(x, text))
  {
    var digest := text.sha256(NulJoin([x.system, x.digest]));
    assert IsHexDigest(digest);
    assert IdOf(x, text) == "report" + ":" + digest;
    assert forall c :: c in digest ==> c != '\0';
  }

  lemma HistoryIdsAreNulFree(a: Ledger, system: string, text: TextServices)
    requires Sound(a) && text.Valid()
    ensures forall r :: r in HistoryIn(a, system, text) ==> NulFree(r.reportId)
  {
    HistoryMembers(a, system, text);
    hide HistoryIn, Sound, NulFree, ReportIdOf;
    forall r | r in HistoryIn(a, system, text) ensures NulFree(r.reportId) {
      var x :| x in a && x.system == system && r == ToReport(x, text);
      HexIsNulFree(x, text);
    }
  }

  /** Every event of a system, and what its key is made of. */
  lemma EventParts(a: Ledger, system: string, text: TextServices, e: Event)
    requires Sound(a) && KeysApart(a, text) && PlainIds(a) && e in EventsIn(a, system, text)
    ensures e.stamp.Stamped? && NulFree(e.stamp.reportId) && NulFree(e.findingId)
  {
    var h := HistoryIn(a, system, text);
    HistoryIsWellFormed(a, system, text);
    HistoryIdsAreNulFree(a, system, text);
    EventsAreReported(a, system, text, e);
    assert NulFree(e.findingId);
    hide HistoryIn, Sound, NulFree, WellFormedReport, Reported, PlainIds;
    EventKeysDistinct(h, text.casefold);
    assert Booked(e, h);
    hide EventsAfter;
  }

  /** The texts whose digests name the events of a ledger. */
  ghost function AllEventTexts(a: Ledger, text: TextServices): set<string> {
    set x, u | x in a && u in EventTexts(x.system, EventsIn(a, x.system, text)) :: u
  }

  lemma EventTextsIn(a: Ledger, system: string, text: TextServices)
    requires Sound(a) && KeysApart(a, text)
    ensures EventTexts(system, EventsIn(a, system, text)) <= AllEventTexts(a, text)
  {
    hide EventsIn, Sound, KeysApart, NulJoin;
    forall e | e in EventsIn(a, system, text) && e.stamp.Stamped?
      ensures NulJoin(EventKey(system, e)) in AllEventTexts(a, text)
    {
      EventsAreReported(a, system, text, e);
      assert NulJoin(EventKey(system, e)) in EventTexts(system, EventsIn(a, system, text));
    }
  }

  lemma SystemKeysDiffer(a: Ledger, system: string, text: TextServices)
    requires Sound(a) && KeysApart(a, text) && PlainIds(a) && text.CollisionFree(AllEventTexts(a, text))
    ensures KeysDiffer(EventRowsOf(system, EventsIn(a, system, text), text))
  {
    var h, es := HistoryIn(a, system, text), EventsIn(a, system, text);
    HistoryIsWellFormed(a, system, text);
    HistoryIdsAreNulFree(a, system, text);
    EventTextsIn(a, system, text);
    forall e | e in es ensures e.stamp.Stamped? && NulFree(e.findingId) { EventParts(a, system, text, e); }
    hide HistoryIn, Sound, NulFree, WellFormedReport, EventsAfter, EventId, PlainIds, AllEventTexts, EventTexts,
      KeysApart;
    forall i, j | 0 <= i < j < |es|
      ensures EventRowOf(system, es[i], text).eventId != EventRowOf(system, es[j], text).eventId
    {
      EventIdsDistinct(h, system, text, i, j);
    }
  }

  lemma {:induction false} KeysDifferBySystem(rows: seq<EventRow>, i: nat, j: nat)
    requires i < j < |rows| && rows[i].system == rows[j].system
    requires KeysDiffer(EventsFor(rows, rows[i].system))
    ensures rows[i].eventId != rows[j].eventId
  {
    var system := rows[i].system;
    var init, last := rows[..|rows| - 1], rows[|rows| - 1];
    var kept := EventsFor(init, system);
    var all := EventsFor(rows, system);
    assert all[..|kept|] == kept;
    if j < |rows| - 1 {
      forall p, q | 0 <= p < q < |kept| ensures kept[p].eventId != kept[q].eventId {
        assert all[p] == kept[p] && all[q] == kept[q];
      }
      KeysDifferBySystem(init, i, j);
    } else {
      InEventsFor(init, init[i]);
      var k :| 0 <= k < |kept| && kept[k] == init[i];
      assert all[k] == rows[i] && all[|kept|] == rows[j];
    }
  }

  lemma {:induction false} InEventsFor(rows: seq<EventRow>, r: EventRow)
    requires r in rows
    ensures r in EventsFor(rows, r.system)
  {
    assert rows == rows[..|rows| - 1] + [rows[|rows| - 1]];
    if r != rows[|rows| - 1] { InEventsFor(rows[..|rows| - 1], r); }
  }

  lemma RowIsDerived(t: Tables, a: Ledger, text: TextServices, r: EventRow)
    requires Holds(t, a, text) && r in t.events
    ensures r.event in EventsIn(a, r.system, text) && r == EventRowOf(r.system, r.event, text)
  {
    assert Derived(t, a, r.system, text);
    InEventsFor(t.events, r);
    hide Facts, EventsFor, StatesIn, EventsIn, EventRowOf, FindingsShow;
    var es := EventsIn(a, r.system, text);
    var k :| 0 <= k < |es| && EventRowsOf(r.system, es, text)[k] == r;
    assert r.event == es[k] by { EventRowParts(r.system, es[k], text); }
  }

  lemma EventRowParts(system: string, e: Event, text: TextServices)
    ensures EventRowOf(system, e, text).event == e && EventRowOf(system, e, text).system == system
  {
  }

  /** The rebuild never violates the primary key of the event table, across all systems. */
  lemma EventTableKeysDiffer(t: Tables, a: Ledger, text: TextServices)
    requires Holds(t, a, text) && KeysApart(a, text) && PlainIds(a) && text.CollisionFree(AllEventTexts(a, text))
    ensures KeysDiffer(t.events)
  {
    assert Sound(a);
    forall i, j | 0 <= i < j < |t.events| ensures t.events[i].eventId != t.events[j].eventId {
      var p, q := t.events[i], t.events[j];
      if p.system == q.system {
        SystemKeysDiffer(a, p.system, text);
        assert Derived(t, a, p.system, text);
        KeysDifferBySystem(t.events, i, j);
      } else {
        RowIsDerived(t, a, text, p);
        RowIsDerived(t, a, text, q);
        EventParts(a, p.system, text, p.event);
        EventParts(a, q.system, text, q.event);
        EventTextsIn(a, p.system, text);
        EventTextsIn(a, q.system, text);
        hide EventId, EventsIn, Sound, NulFree, Facts, Derived, PlainIds, AllEventTexts, KeysApart, NulJoin, EventKey,
          TextServices.CollisionFree;
        if p.eventId == q.eventId {
          EventIdDetermines(AllEventTexts(a, text), p.system, p.event, q.system, q.event, text);
        }
      }
    }
  }
}
