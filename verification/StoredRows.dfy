/**
 * What a store shows of the submissions it accepted, row by row and field by field: the facts as
 * they were submitted, each finding as last submitted, and each event with its values.
 */
module StoredRows {
  import opened Common
  import opened Orders
  import opened Text
  import opened Coverage
  import opened Lifecycle
  import opened LifecycleLaws
  import opened LifecycleIdentity
  import opened LifecycleEvents
  import opened MemoryModel
  import opened MemoryTables
  import opened MemoryInvariant

  // ----- submissions in time order

  function ReportKey(x: Submission, text: TextServices): string {
    "report:" + text.sha256(x.system + ['\0'] + x.digest)
  }

  /** y is read after x: by time, and by report id at the same time. */
  predicate Later(x: Submission, y: Submission, text: TextServices) {
    || x.generatedAt < y.generatedAt
    || (x.generatedAt == y.generatedAt && ReportKey(x, text) != ReportKey(y, text)
        && StrLe(ReportKey(x, text), ReportKey(y, text)))
  }

  ghost predicate Lacks(x: Submission, id: FindingId) {
    forall f :: f in x.findings ==> f.findingId != id
  }

  /** No submission of the system after x holds the finding. */
  ghost predicate LastHolder(a: Ledger, x: Submission, id: FindingId, text: TextServices) {
    forall y :: y in a && y.system == x.system && Later(x, y, text) ==> Lacks(y, id)
  }

  /** No submission of the system before y holds the finding. */
  ghost predicate NotHeldBefore(a: Ledger, y: Submission, id: FindingId, text: TextServices) {
    forall x :: x in a && x.system == y.system && Later(x, y, text) ==> Lacks(x, id)
  }

  /** x is the last submission before y that holds the finding. */
  ghost predicate HolderBefore(a: Ledger, x: Submission, y: Submission, id: FindingId, text: TextServices) {
    && x in a && x.system == y.system && Later(x, y, text)
    && forall z :: z in a && z.system == y.system && Later(x, z, text) && Later(z, y, text) ==> Lacks(z, id)
  }

  /** The submission's coverage proves the absence of findings of this source. */
  predicate ProvesAbsence(x: Submission, source: string, text: TextServices) {
    StoredComplete(text.casefold(source), Some(x.coverage))
  }

  ghost predicate ProvedSince(a: Ledger, x: Submission, source: string, text: TextServices) {
    exists y :: y in a && y.system == x.system && Later(x, y, text) && ProvesAbsence(y, source, text)
  }

  ghost predicate ProvedWithin(a: Ledger, x: Submission, y: Submission, source: string, text: TextServices) {
    exists z :: z in a && z.system == x.system && Later(x, z, text) && Later(z, y, text)
      && ProvesAbsence(z, source, text)
  }

  lemma KeyIsId(x: Submission, text: TextServices)
    ensures ReportKey(x, text) == IdOf(x, text)
  {
    assert [x.system, x.digest][1..] == [x.digest] && NulJoin([x.digest]) == x.digest;
    assert NulJoin([x.system, x.digest]) == x.system + ['\0'] + x.digest;
    assert "report" + ":" == "report:";
  }

  // ----- the facts

  /** An occurrence row that says what was submitted. */
  predicate ShowsFinding(o: OccurrenceRow, x: Submission, f: Finding, text: TextServices) {
    && o.reportId == ReportKey(x, text) && o.system == x.system && o.details == f.details
    && o.occurrence.findingId == f.findingId && o.occurrence.observedAt == x.generatedAt
    && o.occurrence.title == f.title && o.occurrence.severity == f.severity && o.occurrence.kind == f.kind
    && o.occurrence.assessment == f.assessment && o.occurrence.source == f.source
    && o.occurrence.inferred == f.inferred
  }

  lemma RowShowsFinding(x: Submission, f: Finding, text: TextServices)
    ensures ShowsFinding(OccurrenceRowOf(x, f, text), x, f, text)
  {
    KeyIsId(x, text);
    hide IdOf, ReportKey;
  }

  /** Every submitted finding has its row. */
  lemma FindingIsStored(t: Tables, a: Ledger, x: Submission, f: Finding, text: TextServices)
    requires Holds(t, a, text) && x in a && f in x.findings
    ensures exists o :: o in t.occurrences && ShowsFinding(o, x, f, text)
  {
    assert OccurrenceFacts(t, a, text);
    hide Holds, ShowsFinding, IdOf;
    OccurrenceRowsAt(x, x.findings, text);
    var i :| 0 <= i < |x.findings| && x.findings[i] == f;
    var row := OccurrenceRowsOf(x, x.findings, text)[i];
    RowShowsFinding(x, f, text);
    assert row in RowsFor(t.occurrences, x.system, IdOf(x, text));
    RowsAreRows(t.occurrences, x.system, IdOf(x, text), row);
  }

  lemma {:induction false} RowsAreRows(os: seq<OccurrenceRow>, system: string, reportId: string, o: OccurrenceRow)
    ensures o in RowsFor(os, system, reportId) <==> o in os && o.system == system && o.reportId == reportId
  {
    if os != [] {
      assert os == os[..|os| - 1] + [os[|os| - 1]];
      RowsAreRows(os[..|os| - 1], system, reportId, o);
    }
  }

  /** Every row of an accepted report is the row of one of its findings. */
  lemma RowWasSubmitted(t: Tables, a: Ledger, x: Submission, o: OccurrenceRow, text: TextServices)
    requires Holds(t, a, text) && x in a && o in t.occurrences
    requires o.system == x.system && o.reportId == ReportKey(x, text)
    ensures exists f :: f in x.findings && ShowsFinding(o, x, f, text)
  {
    assert OccurrenceFacts(t, a, text);
    KeyIsId(x, text);
    hide Holds, ShowsFinding, IdOf, ReportKey;
    OccurrenceRowsAt(x, x.findings, text);
    RowsAreRows(t.occurrences, x.system, IdOf(x, text), o);
    var i :| 0 <= i < |x.findings| && OccurrenceRowsOf(x, x.findings, text)[i] == o;
    RowShowsFinding(x, x.findings[i], text);
  }

  predicate ShowsReport(r: ReportRow, x: Submission, text: TextServices) {
    && r.reportId == ReportKey(x, text) && r.system == x.system && r.generatedAt == x.generatedAt
    && r.schema == x.schema && r.digest == x.digest && r.origin == x.origin && r.coverage == x.coverage
  }

  /** The report and score rows of a submission. */
  lemma ReportIsStored(t: Tables, a: Ledger, x: Submission, text: TextServices)
    requires Holds(t, a, text) && x in a
    ensures exists r :: r in t.reports && ShowsReport(r, x, text)
    ensures ReportKey(x, text) in t.scores
    ensures var s := t.scores[ReportKey(x, text)];
      s.system == x.system && s.score == x.score && s.observedAt == x.generatedAt
  {
    assert ReportFacts(t, a, text) && ScoreFacts(t, a, text);
    KeyIsId(x, text);
    hide Holds, IdOf, ReportKey;
    var r := RowOf(x, text);
    assert r in t.reports && r.reportId == IdOf(x, text);
  }

  // ----- the history behind the rows

  lemma PlaceOf(a: Ledger, x: Submission, text: TextServices) returns (k: nat)
    requires x in a
    ensures k < |HistoryIn(a, x.system, text)| && HistoryIn(a, x.system, text)[k] == ToReport(x, text)
  {
    HistoryMembers(a, x.system, text);
    hide HistoryIn, ToReport;
    assert ToReport(x, text) in HistoryIn(a, x.system, text);
    k :| 0 <= k < |HistoryIn(a, x.system, text)| && HistoryIn(a, x.system, text)[k] == ToReport(x, text);
  }

  lemma SubmissionAt(a: Ledger, system: string, k: nat, text: TextServices) returns (x: Submission)
    requires k < |HistoryIn(a, system, text)|
    ensures x in a && x.system == system && HistoryIn(a, system, text)[k] == ToReport(x, text)
  {
    HistoryMembers(a, system, text);
    hide HistoryIn, ToReport;
    var r := HistoryIn(a, system, text)[k];
    assert r in HistoryIn(a, system, text);
    x :| x in a && x.system == system && r == ToReport(x, text);
  }

  lemma ReportParts(x: Submission, text: TextServices)
    ensures var r := ToReport(x, text);
      r.reportId == ReportKey(x, text) && r.generatedAt == x.generatedAt && r.coverage == Some(x.coverage)
  {
    KeyIsId(x, text);
    hide ReportKey, ReportIdOf, Sort;
  }

  /** The history lists submissions in reading order. */
  lemma OrderIsLater(a: Ledger, system: string, i: nat, j: nat, x: Submission, y: Submission, text: TextServices)
    requires Sound(a) && KeysApart(a, text)
    requires i < |HistoryIn(a, system, text)| && j < |HistoryIn(a, system, text)|
    requires HistoryIn(a, system, text)[i] == ToReport(x, text) && HistoryIn(a, system, text)[j] == ToReport(y, text)
    ensures i < j <==> Later(x, y, text)
  {
    hide *;
    if i < j {
      PairInOrder(a, system, i, j, text);
      LeIsLater(x, y, text);
    } else if j < i {
      PairInOrder(a, system, j, i, text);
      LeIsLater(y, x, text);
    } else {
      SameReportNotLater(x, y, text);
    }
  }

  lemma PairInOrder(a: Ledger, system: string, i: nat, j: nat, text: TextServices)
    requires Sound(a) && KeysApart(a, text) && i < j < |HistoryIn(a, system, text)|
    ensures var h := HistoryIn(a, system, text);
      ReportLe(h[i], h[j]) && h[i].reportId != h[j].reportId
  {
    HistoryMembers(a, system, text);
    HistoryIsWellFormed(a, system, text);
    hide Sound, KeysApart, HistoryIn, ReportLe, WellFormedReport, ReportsIn;
  }

  lemma LeIsLater(x: Submission, y: Submission, text: TextServices)
    requires ReportLe(ToReport(x, text), ToReport(y, text))
    requires ToReport(x, text).reportId != ToReport(y, text).reportId
    ensures Later(x, y, text) && !Later(y, x, text)
  {
    ReportParts(x, text);
    ReportParts(y, text);
    StrLeIsTotal();
    hide ToReport, ReportKey, StrLe;
  }

  lemma SameReportNotLater(x: Submission, y: Submission, text: TextServices)
    requires ToReport(x, text) == ToReport(y, text)
    ensures !Later(x, y, text)
  {
    ReportParts(x, text);
    ReportParts(y, text);
    hide ToReport, ReportKey, StrLe;
  }

  /** The occurrence by which a report shows a submitted finding. */
  predicate SameFinding(p: Occurrence, x: Submission, f: Finding) {
    && p.findingId == f.findingId && p.observedAt == x.generatedAt && p.title == f.title && p.severity == f.severity
    && p.kind == f.kind && p.assessment == f.assessment && p.source == f.source && p.inferred == f.inferred
  }

  lemma OccurrenceFor(x: Submission, f: Finding, text: TextServices) returns (p: Occurrence)
    requires f in x.findings
    ensures p in ToReport(x, text).occurrences && SameFinding(p, x, f)
  {
    var os := OccurrencesOf(x.findings, x.generatedAt);
    OccurrencesAt(x.findings, x.generatedAt);
    SortIsPermutation(os, OccurrenceLe);
    hide Sort, OccurrenceLe, OccurrencesOf, ReportIdOf;
    var i :| 0 <= i < |x.findings| && x.findings[i] == f;
    p := os[i];
    assert p in os;
  }

  lemma AbsentMeansLacks(x: Submission, id: FindingId, text: TextServices)
    ensures Absent(ToReport(x, text), id) <==> Lacks(x, id)
  {
    var os := OccurrencesOf(x.findings, x.generatedAt);
    OccurrencesAt(x.findings, x.generatedAt);
    SortIsPermutation(os, OccurrenceLe);
    hide Sort, OccurrenceLe, OccurrencesOf, ReportIdOf;
    if Lacks(x, id) {
      forall o | o in ToReport(x, text).occurrences ensures o.findingId != id {
        assert o in os;
        var i :| 0 <= i < |os| && os[i] == o;
        assert x.findings[i] in x.findings;
      }
    }
    if Absent(ToReport(x, text), id) {
      forall f | f in x.findings ensures f.findingId != id {
        var i :| 0 <= i < |x.findings| && x.findings[i] == f;
        assert os[i] in os;
      }
    }
  }

  lemma HistoryIsWell(a: Ledger, system: string, text: TextServices)
    requires Sound(a) && KeysApart(a, text)
    ensures WellFormed(HistoryIn(a, system, text)) && WellFormedReports(HistoryIn(a, system, text))
  {
    HistoryIsWellFormed(a, system, text);
    hide HistoryIn, WellFormedReport, Sound, KeysApart;
  }

  /** x at position j is the last to hold the finding. */
  lemma LastOfAll(a: Ledger, x: Submission, f: Finding, j: nat, p: Occurrence, text: TextServices)
    requires Sound(a) && KeysApart(a, text) && LastHolder(a, x, f.findingId, text)
    requires j < |HistoryIn(a, x.system, text)| && HistoryIn(a, x.system, text)[j] == ToReport(x, text)
    requires p in ToReport(x, text).occurrences && SameFinding(p, x, f)
    ensures LastReported(HistoryIn(a, x.system, text), |HistoryIn(a, x.system, text)|, f.findingId, j, p)
  {
    var h := HistoryIn(a, x.system, text);
    hide Sound, KeysApart, ToReport, Later, HistoryIn, Lacks, Absent;
    forall i | j < i < |h| ensures Absent(h[i], f.findingId) {
      var z := SubmissionAt(a, x.system, i, text);
      OrderIsLater(a, x.system, j, i, x, z, text);
      AbsentMeansLacks(z, f.findingId, text);
    }
  }

  /** x at position j is the last before y at position k to hold the finding. */
  lemma LastBefore(a: Ledger, x: Submission, y: Submission, f: Finding, j: nat, k: nat, p: Occurrence,
                   text: TextServices)
    requires Sound(a) && KeysApart(a, text) && HolderBefore(a, x, y, f.findingId, text)
    requires j < |HistoryIn(a, x.system, text)| && HistoryIn(a, x.system, text)[j] == ToReport(x, text)
    requires k < |HistoryIn(a, x.system, text)| && HistoryIn(a, x.system, text)[k] == ToReport(y, text)
    requires p in ToReport(x, text).occurrences && SameFinding(p, x, f)
    ensures LastReported(HistoryIn(a, x.system, text), k, f.findingId, j, p)
  {
    var h := HistoryIn(a, x.system, text);
    hide Sound, KeysApart, ToReport, Later, HistoryIn, Lacks, Absent;
    OrderIsLater(a, x.system, j, k, x, y, text);
    forall i | j < i < k ensures Absent(h[i], f.findingId) {
      var z := SubmissionAt(a, x.system, i, text);
      OrderIsLater(a, x.system, j, i, x, z, text);
      OrderIsLater(a, x.system, i, k, z, y, text);
      AbsentMeansLacks(z, f.findingId, text);
    }
  }

  lemma ProofAt(a: Ledger, system: string, i: nat, z: Submission, source: string, text: TextServices)
    requires i < |HistoryIn(a, system, text)| && HistoryIn(a, system, text)[i] == ToReport(z, text)
    ensures StoredComplete(text.casefold(source), HistoryIn(a, system, text)[i].coverage)
      <==> ProvesAbsence(z, source, text)
  {
    ReportParts(z, text);
    hide HistoryIn, ToReport, StoredComplete, ReportKey;
  }

  lemma ProofsSince(a: Ledger, x: Submission, j: nat, source: string, text: TextServices)
    requires Sound(a) && KeysApart(a, text)
    requires j < |HistoryIn(a, x.system, text)| && HistoryIn(a, x.system, text)[j] == ToReport(x, text)
    ensures ProvedBetween(HistoryIn(a, x.system, text), j, |HistoryIn(a, x.system, text)|, source, text.casefold)
      <==> ProvedSince(a, x, source, text)
  {
    var h := HistoryIn(a, x.system, text);
    hide Sound, KeysApart, ToReport, Later, HistoryIn, StoredComplete, ProvesAbsence;
    if i :| j < i < |h| && StoredComplete(text.casefold(source), h[i].coverage) {
      var z := SubmissionAt(a, x.system, i, text);
      OrderIsLater(a, x.system, j, i, x, z, text);
      ProofAt(a, x.system, i, z, source, text);
    }
    if z :| z in a && z.system == x.system && Later(x, z, text) && ProvesAbsence(z, source, text) {
      var i := PlaceOf(a, z, text);
      OrderIsLater(a, x.system, j, i, x, z, text);
      ProofAt(a, x.system, i, z, source, text);
    }
  }

  lemma ProofsWithin(a: Ledger, x: Submission, y: Submission, j: nat, k: nat, source: string, text: TextServices)
    requires Sound(a) && KeysApart(a, text) && x.system == y.system
    requires j < |HistoryIn(a, x.system, text)| && HistoryIn(a, x.system, text)[j] == ToReport(x, text)
    requires k < |HistoryIn(a, x.system, text)| && HistoryIn(a, x.system, text)[k] == ToReport(y, text)
    ensures ProvedBetween(HistoryIn(a, x.system, text), j, k, source, text.casefold)
      <==> ProvedWithin(a, x, y, source, text)
  {
    var h := HistoryIn(a, x.system, text);
    hide Sound, KeysApart, ToReport, Later, HistoryIn, StoredComplete, ProvesAbsence;
    if i :| j < i < k && StoredComplete(text.casefold(source), h[i].coverage) {
      var z := SubmissionAt(a, x.system, i, text);
      OrderIsLater(a, x.system, j, i, x, z, text);
      OrderIsLater(a, x.system, i, k, z, y, text);
      ProofAt(a, x.system, i, z, source, text);
    }
    if z :| z in a && z.system == x.system && Later(x, z, text) && Later(z, y, text) && ProvesAbsence(z, source, text) {
      var i := PlaceOf(a, z, text);
      OrderIsLater(a, x.system, j, i, x, z, text);
      OrderIsLater(a, x.system, i, k, z, y, text);
      ProofAt(a, x.system, i, z, source, text);
    }
  }

  // ----- finding rows

  /** The row of a finding with the values of the submission that held it last. */
  ghost predicate ShowsLatest(row: FindingRow, a: Ledger, x: Submission, f: Finding, text: TextServices) {
    var s := row.summary;
    && s.findingId == f.findingId && s.lastSeen == x.generatedAt
    && s.title == f.title && s.severity == f.severity && s.kind == f.kind && s.assessment == f.assessment
    && s.source == f.source && s.inferred == f.inferred
    && (row.active <==> s.state == Active)
    && (s.state == Active <==> forall y :: y in a && y.system == x.system ==> !Later(x, y, text))
    && (s.state == Resolved <==> ProvedSince(a, x, f.source, text))
  }

  lemma LastPlace(a: Ledger, x: Submission, j: nat, text: TextServices)
    requires Sound(a) && KeysApart(a, text)
    requires j < |HistoryIn(a, x.system, text)| && HistoryIn(a, x.system, text)[j] == ToReport(x, text)
    ensures j == |HistoryIn(a, x.system, text)| - 1
      <==> forall y :: y in a && y.system == x.system ==> !Later(x, y, text)
  {
    var h := HistoryIn(a, x.system, text);
    hide Sound, KeysApart, ToReport, Later, HistoryIn;
    forall y | y in a && y.system == x.system && Later(x, y, text) ensures j < |h| - 1 {
      var i := PlaceOf(a, y, text);
      OrderIsLater(a, x.system, j, i, x, y, text);
    }
    if j < |h| - 1 {
      var y := SubmissionAt(a, x.system, j + 1, text);
      OrderIsLater(a, x.system, j, j + 1, x, y, text);
    }
  }

  /**
   * The stored row of a finding: the values last submitted, active iff that was the system's last
   * report, resolved iff a later one proves its absence for the source submitted with it.
   */
  lemma FindingRowShowsLatest(t: Tables, a: Ledger, x: Submission, f: Finding, text: TextServices)
    requires Holds(t, a, text) && KeysApart(a, text)
    requires x in a && f in x.findings && LastHolder(a, x, f.findingId, text)
    ensures (x.system, f.findingId) in t.findings
    ensures ShowsLatest(t.findings[(x.system, f.findingId)], a, x, f, text)
  {
    HoldsIsSound(t, a, text);
    RowIsTracked(t, a, x.system, f.findingId, text);
    TrackShowsLatest(a, x, f, text);
    hide *;
  }

  lemma HoldsIsSound(t: Tables, a: Ledger, text: TextServices)
    requires Holds(t, a, text)
    ensures Sound(a)
  {
    hide Sound, ReportFacts, OccurrenceFacts, ScoreFacts, Derived;
  }

  lemma RowIsTracked(t: Tables, a: Ledger, system: string, id: FindingId, text: TextServices)
    requires Holds(t, a, text) && KeysApart(a, text)
    ensures var s := Track(HistoryIn(a, system, text), id, text.casefold);
      && ((system, id) in t.findings <==> s.Some?)
      && (s.Some? ==>
            t.findings[(system, id)] == FindingRow(s.value, s.value.state == Active, s.value.count >= 2))
  {
    HoldsIsSound(t, a, text);
    assert Derived(t, a, system, text);
    HistoryIsWell(a, system, text);
    hide Holds, HistoryIn, EventsShow, StatesAfter, EventsAfter, Track, TrackEvents, OfFinding, Sound, KeysApart,
      WellFormedReports;
    FindingsAreIndependent(HistoryIn(a, system, text), text.casefold, id);
  }

  lemma TrackShowsLatest(a: Ledger, x: Submission, f: Finding, text: TextServices)
    requires Sound(a) && KeysApart(a, text)
    requires x in a && f in x.findings && LastHolder(a, x, f.findingId, text)
    ensures var s := Track(HistoryIn(a, x.system, text), f.findingId, text.casefold);
      s.Some? && ShowsLatest(FindingRow(s.value, s.value.state == Active, s.value.count >= 2), a, x, f, text)
  {
    var h := HistoryIn(a, x.system, text);
    var j := PlaceOf(a, x, text);
    var p := OccurrenceFor(x, f, text);
    HistoryIsWell(a, x.system, text);
    LastOfAll(a, x, f, j, p, text);
    assert h[..|h|] == h;
    hide Sound, KeysApart, HistoryIn, ToReport, Later, LastHolder, ProvedBetween, LastReported, Track, ProvedSince,
      WellFormed, WellFormedReports;
    PriorIs(h, |h|, f.findingId, j, p, text.casefold);
    TrackedId(h, f.findingId, text.casefold);
    ProofsSince(a, x, j, f.source, text);
    LastPlace(a, x, j, text);
    if j == |h| - 1 { ProofNeedsLater(a, x, f.source, text); }
  }

  lemma ProofNeedsLater(a: Ledger, x: Submission, source: string, text: TextServices)
    requires forall y :: y in a && y.system == x.system ==> !Later(x, y, text)
    ensures !ProvedSince(a, x, source, text)
  {
  }

  // ----- event rows

  function KindText(kind: EventType): string {
    if kind == FirstSeen then "FIRST_SEEN" else if kind == Seen then "SEEN" else if kind == Reopened then "REOPENED"
    else if kind == ResolvedEvent then "RESOLVED" else if kind == SeverityChanged then "SEVERITY_CHANGED"
    else if kind == AssessmentStateChanged then "ASSESSMENT_STATE_CHANGED" else "KIND_CHANGED"
  }

  function EventText(y: Submission, e: Event, text: TextServices): string {
    "event:" + text.sha256(
      y.system + ['\0'] + ReportKey(y, text) + ['\0'] + e.findingId + ['\0'] + KindText(e.kind))
  }

  /** An event of this report about this finding. */
  predicate About(r: EventRow, y: Submission, id: FindingId, text: TextServices) {
    r.system == y.system && r.event.findingId == id && r.event.stamp == Stamped(ReportKey(y, text), y.generatedAt)
  }

  /** The stored events of a report about a finding are exactly these, under their ids. */
  ghost predicate StoresExactly(t: Tables, y: Submission, id: FindingId, es: seq<Event>, text: TextServices) {
    forall r :: About(r, y, id, text) ==> (r in t.events <==> r.event in es && r.eventId == EventText(y, r.event, text))
  }

  lemma EventIdIsText(y: Submission, e: Event, text: TextServices)
    requires e.stamp == Stamped(ReportKey(y, text), y.generatedAt)
    ensures EventId(y.system, e, text) == EventText(y, e, text)
  {
    JoinOfFour(y.system, ReportKey(y, text), e.findingId, TypeName(e.kind));
    assert TypeName(e.kind) == KindText(e.kind);
    assert "event" + ":" == "event:";
    hide ReportKey, NulJoin, TypeName, KindText;
  }

  lemma DerivedIsRow(t: Tables, a: Ledger, system: string, e: Event, text: TextServices)
    requires Holds(t, a, text) && e in EventsIn(a, system, text)
    ensures EventRowOf(system, e, text) in t.events
  {
    assert Derived(t, a, system, text);
    hide Holds, EventsIn, FindingsShow, EventRowOf, EventsFor, EventRowsOf;
    RowOfEvent(system, EventsIn(a, system, text), e, text);
    FilteredRowsAreRows(t.events, system, EventRowOf(system, e, text));
  }

  lemma RowOfEvent(system: string, es: seq<Event>, e: Event, text: TextServices)
    requires e in es
    ensures EventRowOf(system, e, text) in EventRowsOf(system, es, text)
  {
    hide EventRowOf;
    var i :| 0 <= i < |es| && es[i] == e;
    assert EventRowsOf(system, es, text)[i] == EventRowOf(system, e, text);
  }

  lemma {:induction false} FilteredRowsAreRows(rows: seq<EventRow>, system: string, r: EventRow)
    ensures r in EventsFor(rows, system) ==> r in rows
  {
    if rows != [] {
      assert rows == rows[..|rows| - 1] + [rows[|rows| - 1]];
      FilteredRowsAreRows(rows[..|rows| - 1], system, r);
    }
  }

  lemma RowIffDerived(t: Tables, a: Ledger, y: Submission, r: EventRow, text: TextServices)
    requires Holds(t, a, text) && About(r, y, r.event.findingId, text)
    ensures r in t.events <==> r.event in EventsIn(a, y.system, text) && r.eventId == EventText(y, r.event, text)
  {
    EventIdIsText(y, r.event, text);
    hide Holds, EventsIn, EventId, EventText, ReportKey;
    if r in t.events { RowIsDerived(t, a, text, r); }
    if r.event in EventsIn(a, y.system, text) { DerivedIsRow(t, a, y.system, r.event, text); }
  }

  lemma BookedIsStored(t: Tables, a: Ledger, y: Submission, k: nat, id: FindingId, es: seq<Event>, text: TextServices)
    requires Holds(t, a, text) && KeysApart(a, text)
    requires k < |HistoryIn(a, y.system, text)| && HistoryIn(a, y.system, text)[k] == ToReport(y, text)
    requires Books(HistoryIn(a, y.system, text), k, id, text.casefold, es)
    ensures StoresExactly(t, y, id, es, text)
  {
    HoldsIsSound(t, a, text);
    HistoryIsWell(a, y.system, text);
    ReportParts(y, text);
    hide Holds, KeysApart, Sound, HistoryIn, ToReport, Books, WellFormed, WellFormedReports, EventText, ReportKey,
      EventsAfter;
    forall r | About(r, y, id, text)
      ensures r in t.events <==> r.event in es && r.eventId == EventText(y, r.event, text)
    {
      RowIffDerived(t, a, y, r, text);
      StampedByReport(HistoryIn(a, y.system, text), k, id, text.casefold, es, r.event);
    }
  }

  function OnReport(y: Submission, id: FindingId, kind: EventType, previous: EventValue, current: EventValue,
                    text: TextServices): Event
  {
    Event(id, kind, previous, current, Stamped(ReportKey(y, text), y.generatedAt))
  }

  lemma OnIsOnReport(y: Submission, id: FindingId, kind: EventType, previous: EventValue, current: EventValue,
                     text: TextServices)
    ensures On(ToReport(y, text), id, kind, previous, current) == OnReport(y, id, kind, previous, current, text)
  {
    ReportParts(y, text);
    hide ToReport, ReportKey;
  }

  lemma LacksBefore(a: Ledger, y: Submission, k: nat, id: FindingId, text: TextServices)
    requires Sound(a) && KeysApart(a, text) && NotHeldBefore(a, y, id, text)
    requires k < |HistoryIn(a, y.system, text)| && HistoryIn(a, y.system, text)[k] == ToReport(y, text)
    ensures forall i :: 0 <= i < k ==> Absent(HistoryIn(a, y.system, text)[i], id)
  {
    hide Sound, KeysApart, ToReport, Later, HistoryIn, Lacks, Absent;
    forall i | 0 <= i < k ensures Absent(HistoryIn(a, y.system, text)[i], id) {
      var z := SubmissionAt(a, y.system, i, text);
      OrderIsLater(a, y.system, i, k, z, y, text);
      AbsentMeansLacks(z, id, text);
    }
  }

  /** The first report of a finding is stored with one FIRST_SEEN event and no values. */
  lemma FirstSightingIsStored(t: Tables, a: Ledger, y: Submission, f: Finding, text: TextServices)
    requires Holds(t, a, text) && KeysApart(a, text)
    requires y in a && f in y.findings && NotHeldBefore(a, y, f.findingId, text)
    ensures StoresExactly(t, y, f.findingId, [OnReport(y, f.findingId, FirstSeen, NoValue, NoValue, text)], text)
  {
    HoldsIsSound(t, a, text);
    HistoryIsWell(a, y.system, text);
    hide Holds, KeysApart, Sound, HistoryIn, ToReport, Books, WellFormed, WellFormedReports, NotHeldBefore,
      StoresExactly, On, OnReport, Absent;
    var k := PlaceOf(a, y, text);
    var o := OccurrenceFor(y, f, text);
    LacksBefore(a, y, k, f.findingId, text);
    FirstReportBooks(HistoryIn(a, y.system, text), k, o, text.casefold);
    OnIsOnReport(y, f.findingId, FirstSeen, NoValue, NoValue, text);
    BookedIsStored(t, a, y, k, f.findingId, [OnReport(y, f.findingId, FirstSeen, NoValue, NoValue, text)], text);
  }

  /** A sighting after an earlier one: the event itself without values, then each change with both values. */
  function Sightings(y: Submission, f: Finding, g: Finding, reopened: bool, text: TextServices): seq<Event> {
    [OnReport(y, g.findingId, if reopened then Reopened else Seen, NoValue, NoValue, text)]
    + (if f.severity == g.severity then []
       else [OnReport(y, g.findingId, SeverityChanged, OfSeverity(f.severity), OfSeverity(g.severity), text)])
    + (if f.assessment == g.assessment then []
       else [OnReport(y, g.findingId, AssessmentStateChanged, OfAssessment(f.assessment), OfAssessment(g.assessment),
                      text)])
    + (if f.kind == g.kind then []
       else [OnReport(y, g.findingId, KindChanged, OfKind(f.kind), OfKind(g.kind), text)])
  }

  lemma SightingsAgree(x: Submission, y: Submission, f: Finding, g: Finding, p: Occurrence, o: Occurrence,
                       reopened: bool, text: TextServices)
    requires SameFinding(p, x, f) && SameFinding(o, y, g)
    ensures SightingEvents(ToReport(y, text), p, o, reopened) == Sightings(y, f, g, reopened, text)
  {
    var id := g.findingId;
    OnIsOnReport(y, id, if reopened then Reopened else Seen, NoValue, NoValue, text);
    OnIsOnReport(y, id, SeverityChanged, OfSeverity(f.severity), OfSeverity(g.severity), text);
    OnIsOnReport(y, id, AssessmentStateChanged, OfAssessment(f.assessment), OfAssessment(g.assessment), text);
    OnIsOnReport(y, id, KindChanged, OfKind(f.kind), OfKind(g.kind), text);
    hide ToReport, On, OnReport;
  }

  /** A finding reported again: REOPENED iff its absence was proved in between, else SEEN; and what changed. */
  lemma NextSightingIsStored(t: Tables, a: Ledger, x: Submission, f: Finding, y: Submission, g: Finding,
                             text: TextServices)
    requires Holds(t, a, text) && KeysApart(a, text)
    requires y in a && g in y.findings && f in x.findings && f.findingId == g.findingId
    requires HolderBefore(a, x, y, g.findingId, text)
    ensures StoresExactly(t, y, g.findingId, Sightings(y, f, g, ProvedWithin(a, x, y, f.source, text), text), text)
  {
    HoldsIsSound(t, a, text);
    HistoryIsWell(a, y.system, text);
    assert x in a && x.system == y.system;
    hide Holds, KeysApart, Sound, HistoryIn, ToReport, Books, WellFormed, WellFormedReports, HolderBefore,
      StoresExactly, SightingEvents, Sightings, ProvedBetween, ProvedWithin, LastReported;
    var j := PlaceOf(a, x, text);
    var k := PlaceOf(a, y, text);
    var p := OccurrenceFor(x, f, text);
    var o := OccurrenceFor(y, g, text);
    LastBefore(a, x, y, f, j, k, p, text);
    ProofsWithin(a, x, y, j, k, f.source, text);
    LaterReportBooks(HistoryIn(a, y.system, text), k, o, j, p, text.casefold);
    SightingsAgree(x, y, f, g, p, o, ProvedWithin(a, x, y, f.source, text), text);
    BookedIsStored(t, a, y, k, g.findingId, Sightings(y, f, g, ProvedWithin(a, x, y, f.source, text), text), text);
  }

  /** Whether y is the report right after x. */
  ghost predicate RightAfter(a: Ledger, x: Submission, y: Submission, text: TextServices) {
    forall z :: z in a && z.system == x.system ==> !(Later(x, z, text) && Later(z, y, text))
  }

  lemma NextPlace(a: Ledger, x: Submission, y: Submission, j: nat, k: nat, text: TextServices)
    requires Sound(a) && KeysApart(a, text) && x.system == y.system
    requires j < k < |HistoryIn(a, x.system, text)|
    requires HistoryIn(a, x.system, text)[j] == ToReport(x, text)
    requires HistoryIn(a, x.system, text)[k] == ToReport(y, text)
    ensures j == k - 1 <==> RightAfter(a, x, y, text)
  {
    hide Sound, KeysApart, ToReport, Later, HistoryIn;
    forall z | z in a && z.system == x.system && Later(x, z, text) && Later(z, y, text) ensures j < k - 1 {
      var i := PlaceOf(a, z, text);
      OrderIsLater(a, x.system, j, i, x, z, text);
      OrderIsLater(a, x.system, i, k, z, y, text);
    }
    if j < k - 1 {
      var z := SubmissionAt(a, x.system, j + 1, text);
      OrderIsLater(a, x.system, j, j + 1, x, z, text);
      OrderIsLater(a, x.system, j + 1, k, z, y, text);
    }
  }

  /** What the absence of a finding from y books, last submitted as f with x. */
  ghost function Absence(a: Ledger, x: Submission, f: Finding, y: Submission, text: TextServices): seq<Event> {
    if ProvedWithin(a, x, y, f.source, text) || !ProvesAbsence(y, f.source, text) then []
    else
      [OnReport(y, f.findingId, ResolvedEvent,
                OfState(if RightAfter(a, x, y, text) then Active else ResolutionUncertain),
                OfState(Resolved), text)]
  }

  /**
   * A finding not reported any more: RESOLVED is stored iff y is the first since x to prove its
   * absence, from ACTIVE if y came right after x and from RESOLUTION_UNCERTAIN otherwise.
   */
  lemma AbsenceIsStored(t: Tables, a: Ledger, x: Submission, f: Finding, y: Submission, text: TextServices)
    requires Holds(t, a, text) && KeysApart(a, text)
    requires y in a && Lacks(y, f.findingId) && f in x.findings && HolderBefore(a, x, y, f.findingId, text)
    ensures StoresExactly(t, y, f.findingId, Absence(a, x, f, y, text), text)
  {
    HoldsIsSound(t, a, text);
    HistoryIsWell(a, y.system, text);
    assert x in a && x.system == y.system;
    hide Holds, KeysApart, Sound, HistoryIn, ToReport, Books, WellFormed, WellFormedReports, HolderBefore, Lacks,
      Absent,
      StoresExactly, ProvedBetween, ProvedWithin, LastReported, ProvesAbsence, StoredComplete, RightAfter, On, OnReport;
    var j := PlaceOf(a, x, text);
    var k := PlaceOf(a, y, text);
    var p := OccurrenceFor(x, f, text);
    LastBefore(a, x, y, f, j, k, p, text);
    assert j < k by { BeforeIsLess(HistoryIn(a, y.system, text), k, f.findingId, j, p); }
    ProofsWithin(a, x, y, j, k, f.source, text);
    ProofAt(a, y.system, k, y, f.source, text);
    NextPlace(a, x, y, j, k, text);
    AbsentMeansLacks(y, f.findingId, text);
    AbsenceBooks(HistoryIn(a, y.system, text), k, f.findingId, j, p, text.casefold);
    OnIsOnReport(y, f.findingId, ResolvedEvent, OfState(Active), OfState(Resolved), text);
    OnIsOnReport(y, f.findingId, ResolvedEvent, OfState(ResolutionUncertain), OfState(Resolved), text);
    BookedIsStored(t, a, y, k, f.findingId, Absence(a, x, f, y, text), text);
  }

  lemma BeforeIsLess(h: History, k: nat, id: FindingId, j: nat, p: Occurrence)
    requires k <= |h| && LastReported(h, k, id, j, p)
    ensures j < k
  {
  }

  /** A finding no report has held so far has no stored events. */
  lemma NothingIsStored(t: Tables, a: Ledger, y: Submission, id: FindingId, text: TextServices)
    requires Holds(t, a, text) && KeysApart(a, text)
    requires y in a && Lacks(y, id) && NotHeldBefore(a, y, id, text)
    ensures StoresExactly(t, y, id, [], text)
  {
    HoldsIsSound(t, a, text);
    HistoryIsWell(a, y.system, text);
    hide Holds, KeysApart, Sound, HistoryIn, ToReport, Books, WellFormed, WellFormedReports, NotHeldBefore,
      StoresExactly, Absent, Lacks;
    var k := PlaceOf(a, y, text);
    LacksBefore(a, y, k, id, text);
    AbsentMeansLacks(y, id, text);
    NothingBooked(HistoryIn(a, y.system, text), k, id, text.casefold);
    BookedIsStored(t, a, y, k, id, [], text);
  }

  /** Every stored event belongs to an accepted report of its system. */
  lemma EveryEventHasItsReport(t: Tables, a: Ledger, r: EventRow, text: TextServices) returns (y: Submission)
    requires Holds(t, a, text) && KeysApart(a, text) && r in t.events
    ensures y in a && About(r, y, r.event.findingId, text)
  {
    HoldsIsSound(t, a, text);
    RowIsDerived(t, a, text, r);
    HistoryIsWell(a, r.system, text);
    hide Holds, KeysApart, Sound, HistoryIn, ToReport, WellFormedReports, EventRowOf, EventsAfter, WellFormedReport,
      ReportKey;
    var h := HistoryIn(a, r.system, text);
    EventKeysDistinct(h, text.casefold);
    assert Booked(r.event, h);
    var k :| 0 <= k < |h| && r.event.stamp == Stamped(h[k].reportId, h[k].generatedAt);
    y := SubmissionAt(a, r.system, k, text);
    ReportParts(y, text);
  }

  // ----- first sighting and number of sightings

  /** A finding row's first-seen time is that of the first submission to hold the finding. */
  lemma FindingRowShowsFirst(t: Tables, a: Ledger, x: Submission, f: Finding, text: TextServices)
    requires Holds(t, a, text) && KeysApart(a, text)
    requires x in a && f in x.findings && NotHeldBefore(a, x, f.findingId, text)
    ensures (x.system, f.findingId) in t.findings
    ensures t.findings[(x.system, f.findingId)].summary.firstSeen == x.generatedAt
  {
    HoldsIsSound(t, a, text);
    HistoryIsWell(a, x.system, text);
    RowIsTracked(t, a, x.system, f.findingId, text);
    hide Holds, KeysApart, Sound, HistoryIn, ToReport, WellFormedReports, NotHeldBefore, Track, ProvedAfter, Find;
    var h := HistoryIn(a, x.system, text);
    var k := PlaceOf(a, x, text);
    var p := OccurrenceFor(x, f, text);
    LacksBefore(a, x, k, f.findingId, text);
    FoundAt(h, k, p);
    forall i | 0 <= i < k ensures !InReport(h[i], f.findingId) { AbsentIsNotFound(h[i], f.findingId); }
    LifecycleClosedForm(h, f.findingId, text.casefold);
    assert FirstIn(h, f.findingId) == k;
  }

  lemma FoundAt(h: History, k: nat, p: Occurrence)
    requires WellFormed(h) && k < |h| && p in h[k].occurrences
    ensures InReport(h[k], p.findingId) && OccurrenceAt(h, k, p.findingId) == p
  {
    hide Find;
    FoundIs(h[k], p);
  }

  ghost function Holders(a: Ledger, system: string, id: FindingId): set<Submission> {
    set x | x in a && x.system == system && !Lacks(x, id)
  }

  /** The places of a history at which a finding is reported. */
  ghost function Places(h: History, id: FindingId): set<int> {
    set i | 0 <= i < |h| && !Absent(h[i], id)
  }

  lemma PlacesStep(h: History, id: FindingId)
    requires h != []
    ensures Places(h, id) == Places(h[..|h| - 1], id) + if Absent(h[|h| - 1], id) then {} else {|h| - 1}
    ensures |h| - 1 !in Places(h[..|h| - 1], id)
  {
    hide Absent;
  }

  lemma {:induction false} CountIsPlaces(h: History, id: FindingId)
    ensures CountIn(h, id) == |Places(h, id)|
  {
    if h != [] {
      CountIsPlaces(h[..|h| - 1], id);
      FindMeans(h[|h| - 1].occurrences, id);
      PlacesStep(h, id);
      assert InReport(h[|h| - 1], id) <==> !Absent(h[|h| - 1], id);
      hide Find, Places, Absent, InReport;
    }
  }

  /** The number of sightings is the number of submissions that hold the finding; two make it recurring. */
  lemma FindingRowCounts(t: Tables, a: Ledger, system: string, id: FindingId, text: TextServices)
    requires Holds(t, a, text) && KeysApart(a, text) && (system, id) in t.findings
    ensures t.findings[(system, id)].summary.count == |Holders(a, system, id)|
    ensures t.findings[(system, id)].recurring <==> |Holders(a, system, id)| >= 2
  {
    HoldsIsSound(t, a, text);
    RowIsTracked(t, a, system, id, text);
    LifecycleClosedForm(HistoryIn(a, system, text), id, text.casefold);
    CountIsPlaces(HistoryIn(a, system, text), id);
    hide Holds, KeysApart, Sound, HistoryIn, Track, ProvedAfter, Find, CountIn, Holders;
    PlacesAreHolders(a, system, id, text);
  }

  lemma PlacesAreHolders(a: Ledger, system: string, id: FindingId, text: TextServices)
    requires Sound(a) && KeysApart(a, text)
    ensures |Places(HistoryIn(a, system, text), id)| == |Holders(a, system, id)|
  {
    var h := HistoryIn(a, system, text);
    HistoryMembers(a, system, text);
    hide HistoryIn, ToReport, Absent, Lacks, Sound, KeysApart, Sorted;
    var reports := set r | r in h && !Absent(r, id);
    PlacesAreReports(h, id, reports);
    HoldersAreReports(a, system, id, reports, text);
  }

  lemma PlacesAreReports(h: History, id: FindingId, reports: set<Report>)
    requires Distinct(h) && reports == set r | r in h && !Absent(r, id)
    ensures |Places(h, id)| == |reports|
  {
    hide Absent;
    forall r | r in reports ensures exists i :: i in Places(h, id) && h[i] == r {
      var i :| 0 <= i < |h| && h[i] == r;
      assert i in Places(h, id);
    }
    RenamedSize(Places(h, id), reports, (i: int) => if 0 <= i < |h| then h[i] else Report("", 0, None, []));
  }

  lemma HoldersAreReports(a: Ledger, system: string, id: FindingId, reports: set<Report>, text: TextServices)
    requires Sound(a) && KeysApart(a, text)
    requires forall r :: r in reports <==> r in ReportsIn(a, system, text) && !Absent(r, id)
    ensures |reports| == |Holders(a, system, id)|
  {
    hide ToReport, Absent, Lacks, Sound, KeysApart;
    forall x { AbsentMeansLacks(x, id, text); }
    forall x, y | x in a && y in a && ToReport(x, text) == ToReport(y, text) ensures x == y {
      SameReportSame(a, x, y, text);
    }
    var name := (x: Submission) => ToReport(x, text);
    forall r | r in reports ensures exists x :: x in Holders(a, system, id) && name(x) == r {
      var x :| x in a && x.system == system && ToReport(x, text) == r;
      assert x in Holders(a, system, id) && name(x) == r;
    }
    RenamedSize(Holders(a, system, id), reports, name);
  }

  lemma SameReportSame(a: Ledger, x: Submission, y: Submission, text: TextServices)
    requires Sound(a) && KeysApart(a, text) && x in a && y in a && ToReport(x, text) == ToReport(y, text)
    ensures x == y
  {
    hide Sound, KeysApart, Sort;
    SameIdSame(a, x, y, text);
  }

  // ----- what a call answers

  /** Counts below zero, scores outside 0 to 100, unknown versions and empty risk texts are refused. */
  ghost predicate SoundScore(s: Score) {
    && 0 <= s.critical && 0 <= s.high && 0 <= s.medium && 0 <= s.low && 0 <= s.info
    && 0 <= s.score && s.score <= 100 && s.version in {"1", "2"} && |s.risk| > 0
  }

  /** No two findings of the submission share an id. */
  ghost predicate IdsApart(x: Submission) {
    forall i, j ::
      0 <= i < |x.findings| && 0 <= j < |x.findings| && x.findings[i].findingId == x.findings[j].findingId ==> i == j
  }

  /** What strict ingestion asks of a repeated report: everything stored, in whatever order of findings. */
  ghost predicate SaysTheSame(stored: Submission, x: Submission) {
    && stored.origin == NativeSystemId && SoundScore(x.score)
    && stored.generatedAt == x.generatedAt && stored.schema == x.schema && stored.coverage == x.coverage
    && stored.score.version == x.score.version && stored.score.score == x.score.score
    && stored.score.risk == x.score.risk && stored.score.critical == x.score.critical
    && stored.score.high == x.score.high && stored.score.medium == x.score.medium
    && stored.score.low == x.score.low && stored.score.info == x.score.info
    && multiset(stored.findings) == multiset(x.findings)
  }

  /** The answer to a submission, by what the store holds under its digest. */
  ghost predicate Answers(outcome: Outcome, a: Ledger, x: Submission, strict: bool, text: TextServices) {
    if forall y :: y in a ==> y.digest != x.digest then
      if SoundScore(x.score) && IdsApart(x) then outcome == Ingested(ReportKey(x, text)) else outcome == Failed
    else
      exists y :: y in a && y.digest == x.digest &&
        if y.system != x.system then outcome == if strict then Failed else IdentityConflict
        else if strict && !SaysTheSame(y, x) then outcome == Failed
        else outcome == Duplicate(ReportKey(x, text))
  }

  lemma AgreementIs(stored: Submission, x: Submission)
    requires DistinctFindings(stored.findings)
    ensures Agrees(stored, x) <==> SaysTheSame(stored, x)
  {
    SortIsPermutation(stored.findings, FindingLe);
    SortIsPermutation(x.findings, FindingLe);
    if multiset(stored.findings) == multiset(x.findings) {
      StrLeIsTotal();
      assert Preorder(FindingLe) by { hide StrLe; }
      FindingsSeparate(stored.findings);
      SortForgetsOrder(stored.findings, x.findings, FindingLe);
    }
    hide Sort, FindingLe;
  }

  lemma FindingsSeparate(fs: seq<Finding>)
    requires DistinctFindings(fs)
    ensures Separates(FindingLe, fs)
  {
    StrLeIsTotal();
    hide StrLe;
  }

  lemma AcceptableIs(x: Submission)
    ensures Acceptable(x) <==> SoundScore(x.score) && IdsApart(x)
  {
  }

  /** What every call answers. */
  lemma OutcomeMeans(a: Ledger, x: Submission, strict: bool, text: TextServices)
    requires Sound(a)
    ensures Answers(OutcomeOf(a, x, strict, text), a, x, strict, text)
  {
    AcceptableIs(x);
    KeyIsId(x, text);
    if Known(a, x.digest) {
      var owner := Owner(a, x.digest);
      assert Acceptable(owner);
      AgreementIs(owner, x);
      hide Agrees, SaysTheSame, ReportIdOf, ReportKey, SoundScore, IdsApart, Acceptable;
      assert owner in a && owner.digest == x.digest;
    } else {
      hide Agrees, SaysTheSame, ReportIdOf, ReportKey, SoundScore, IdsApart, Acceptable;
    }
  }
}
