/** The stored tables, what they hold of a ledger, and the history read back from them. */
module MemoryTables {
  import opened Common
  import opened Orders
  import opened Text
  import opened Coverage
  import opened Lifecycle
  import opened MemoryModel

  datatype ReportRow = ReportRow(
    reportId: string, system: string, generatedAt: int, schema: string, digest: string, origin: Origin,
    coverage: CoverageObject)

  datatype ScoreRow = ScoreRow(system: string, score: Score, observedAt: int)

  datatype OccurrenceRow = OccurrenceRow(reportId: string, system: string, occurrence: Occurrence, details: Details)

  datatype FindingRow = FindingRow(summary: Summary, active: bool, recurring: bool)

  datatype EventRow = EventRow(eventId: string, system: string, event: Event)

  /** Primary keys that the program computes as digests of other columns are left implicit, except event ids. */
  datatype Tables = Tables(
    reports: seq<ReportRow>,
    scores: map<string, ScoreRow>,
    findings: map<(string, FindingId), FindingRow>,
    occurrences: seq<OccurrenceRow>,
    events: seq<EventRow>)

  function IdOf(x: Submission, text: TextServices): string {
    ReportIdOf(x.system, x.digest, text)
  }

  function RowOf(x: Submission, text: TextServices): ReportRow {
    ReportRow(IdOf(x, text), x.system, x.generatedAt, x.schema, x.digest, x.origin, x.coverage)
  }

  function ScoreRowOf(x: Submission): ScoreRow {
    ScoreRow(x.system, x.score, x.generatedAt)
  }

  function OccurrenceRowOf(x: Submission, f: Finding, text: TextServices): OccurrenceRow {
    OccurrenceRow(IdOf(x, text), x.system, OccurrenceOf(f, x.generatedAt), f.details)
  }

  function OccurrenceRowsOf(x: Submission, fs: seq<Finding>, text: TextServices): seq<OccurrenceRow> {
    if fs == [] then []
    else [OccurrenceRowOf(x, fs[0], text)] + OccurrenceRowsOf(x, fs[1..], text)
  }

  // ----- reading back

  function RowsFor(os: seq<OccurrenceRow>, system: string, reportId: string): seq<OccurrenceRow> {
    if os == [] then []
    else
      var last := os[|os| - 1];
      RowsFor(os[..|os| - 1], system, reportId)
        + (if last.system == system && last.reportId == reportId then [last] else [])
  }

  function Occurrences(os: seq<OccurrenceRow>): seq<Occurrence> {
    if os == [] then [] else [os[0].occurrence] + Occurrences(os[1..])
  }

  function BuildReport(row: ReportRow, os: seq<OccurrenceRow>): Report {
    Report(row.reportId, row.generatedAt, Some(row.coverage),
           Sort(Occurrences(RowsFor(os, row.system, row.reportId)), OccurrenceLe))
  }

  function ReportsOf(rows: seq<ReportRow>, os: seq<OccurrenceRow>, system: string): seq<Report> {
    if rows == [] then []
    else
      var last := rows[|rows| - 1];
      ReportsOf(rows[..|rows| - 1], os, system) + (if last.system == system then [BuildReport(last, os)] else [])
  }

  /** The reports of a system in (time, id) order, as the derivation selects them. */
  function HistoryOf(t: Tables, system: string): History {
    Sort(ReportsOf(t.reports, t.occurrences, system), ReportLe)
  }

  // ----- the immutable facts

  ghost predicate IdIn(a: Ledger, reportId: string, text: TextServices) {
    exists x :: x in a && IdOf(x, text) == reportId
  }

  ghost predicate RowIn(a: Ledger, row: ReportRow, text: TextServices) {
    exists x :: x in a && RowOf(x, text) == row
  }

  ghost predicate ReportFacts(t: Tables, a: Ledger, text: TextServices) {
    && (forall x :: x in a ==> RowOf(x, text) in t.reports)
    && (forall row :: row in t.reports ==> RowIn(a, row, text))
    && Distinct(t.reports)
  }

  ghost predicate OccurrenceFacts(t: Tables, a: Ledger, text: TextServices) {
    && (forall x :: x in a ==> RowsFor(t.occurrences, x.system, IdOf(x, text)) == OccurrenceRowsOf(x, x.findings, text))
    && (forall o :: o in t.occurrences ==> IdIn(a, o.reportId, text))
  }

  ghost predicate ScoreFacts(t: Tables, a: Ledger, text: TextServices) {
    && (forall x :: x in a ==> IdOf(x, text) in t.scores && t.scores[IdOf(x, text)] == ScoreRowOf(x))
    && (forall id :: id in t.scores ==> IdIn(a, id, text))
  }

  /** The fact tables hold exactly the submissions of the ledger. */
  ghost predicate Facts(t: Tables, a: Ledger, text: TextServices) {
    Sound(a) && ReportFacts(t, a, text) && OccurrenceFacts(t, a, text) && ScoreFacts(t, a, text)
  }

  lemma {:induction false} RowsForConcat(os: seq<OccurrenceRow>, more: seq<OccurrenceRow>, system: string,
                                         reportId: string)
    ensures RowsFor(os + more, system, reportId) == RowsFor(os, system, reportId) + RowsFor(more, system, reportId)
  {
    if more == [] {
      assert os + more == os;
    } else {
      assert (os + more)[..|os + more| - 1] == os + more[..|more| - 1];
      RowsForConcat(os, more[..|more| - 1], system, reportId);
    }
  }

  lemma {:induction false} RowsForUniform(os: seq<OccurrenceRow>, system: string, reportId: string)
    ensures (forall o :: o in os ==> o.system == system && o.reportId == reportId)
      ==> RowsFor(os, system, reportId) == os
    ensures (forall o :: o in os ==> o.reportId != reportId) ==> RowsFor(os, system, reportId) == []
  {
    if os != [] {
      assert os == os[..|os| - 1] + [os[|os| - 1]];
      RowsForUniform(os[..|os| - 1], system, reportId);
    }
  }

  lemma {:induction false} OccurrenceRowsAt(x: Submission, fs: seq<Finding>, text: TextServices)
    ensures |OccurrenceRowsOf(x, fs, text)| == |fs|
    ensures forall i :: 0 <= i < |fs| ==> OccurrenceRowsOf(x, fs, text)[i] == OccurrenceRowOf(x, fs[i], text)
    ensures forall o :: o in OccurrenceRowsOf(x, fs, text) ==> o.system == x.system && o.reportId == IdOf(x, text)
  {
    hide IdOf;
    if fs != [] { OccurrenceRowsAt(x, fs[1..], text); }
  }

  lemma {:induction false} OccurrencesOfRowsAt(os: seq<OccurrenceRow>)
    ensures |Occurrences(os)| == |os| && forall i :: 0 <= i < |os| ==> Occurrences(os)[i] == os[i].occurrence
  {
    if os != [] { OccurrencesOfRowsAt(os[1..]); }
  }

  lemma RowsGiveOccurrences(x: Submission, text: TextServices)
    ensures Occurrences(OccurrenceRowsOf(x, x.findings, text)) == OccurrencesOf(x.findings, x.generatedAt)
  {
    OccurrenceRowsAt(x, x.findings, text);
    OccurrencesOfRowsAt(OccurrenceRowsOf(x, x.findings, text));
    OccurrencesAt(x.findings, x.generatedAt);
    hide Occurrences, OccurrenceRowsOf, OccurrencesOf, IdOf;
  }

  lemma BuildsSubmission(t: Tables, a: Ledger, x: Submission, text: TextServices)
    requires OccurrenceFacts(t, a, text) && x in a
    ensures BuildReport(RowOf(x, text), t.occurrences) == ToReport(x, text)
  {
    RowsGiveOccurrences(x, text);
    hide Occurrences, OccurrenceRowsOf, OccurrencesOf, ReportIdOf, RowsFor, Sort, OccurrenceLe;
  }

  lemma {:induction false} ReportsOfMeans(rows: seq<ReportRow>, os: seq<OccurrenceRow>, system: string)
    ensures forall row :: row in rows && row.system == system ==> BuildReport(row, os) in ReportsOf(rows, os, system)
    ensures forall r :: r in ReportsOf(rows, os, system) ==>
      exists row :: row in rows && row.system == system && r == BuildReport(row, os)
  {
    hide BuildReport;
    if rows != [] {
      var init, last := rows[..|rows| - 1], rows[|rows| - 1];
      assert rows == init + [last];
      ReportsOfMeans(init, os, system);
      forall r | r in ReportsOf(rows, os, system)
        ensures exists row :: row in rows && row.system == system && r == BuildReport(row, os)
      {
        if r in ReportsOf(init, os, system) {
          var row :| row in init && row.system == system && r == BuildReport(row, os);
          assert row in rows;
        } else {
          assert last in rows;
        }
      }
    }
  }

  lemma BuiltId(row: ReportRow, os: seq<OccurrenceRow>)
    ensures BuildReport(row, os).reportId == row.reportId
  {
  }

  lemma {:induction false} ReportsOfDistinct(rows: seq<ReportRow>, os: seq<OccurrenceRow>, system: string)
    requires forall i, j :: 0 <= i < j < |rows| ==> rows[i].reportId != rows[j].reportId
    ensures Distinct(ReportsOf(rows, os, system))
  {
    hide BuildReport;
    if rows != [] {
      var init, last := rows[..|rows| - 1], rows[|rows| - 1];
      ReportsOfDistinct(init, os, system);
      ReportsOfMeans(init, os, system);
      BuiltId(last, os);
      forall r | r in ReportsOf(init, os, system) ensures r != BuildReport(last, os) {
        var row :| row in init && row.system == system && r == BuildReport(row, os);
        BuiltId(row, os);
        var i :| 0 <= i < |init| && init[i] == row;
        assert rows[i].reportId != rows[|rows| - 1].reportId;
      }
    }
  }

  lemma RowIdsDistinct(t: Tables, a: Ledger, text: TextServices, i: nat, j: nat)
    requires Sound(a) && ReportFacts(t, a, text) && KeysApart(a, text) && i < j < |t.reports|
    ensures t.reports[i].reportId != t.reports[j].reportId
  {
    hide IsHexDigest, Acceptable, ReportIdOf, KeysApart;
    assert RowIn(a, t.reports[i], text) && RowIn(a, t.reports[j], text);
    var x :| x in a && RowOf(x, text) == t.reports[i];
    var y :| y in a && RowOf(y, text) == t.reports[j];
    if IdOf(x, text) == IdOf(y, text) {
      SameIdSame(a, x, y, text);
    }
  }

  /** The tables show the history of the ledger. */
  lemma HistoryIsSpec(t: Tables, a: Ledger, system: string, text: TextServices)
    requires Facts(t, a, text) && KeysApart(a, text)
    ensures HistoryOf(t, system) == HistoryIn(a, system, text)
  {
    hide Sound, ReportFacts, OccurrenceFacts, ScoreFacts, ReportLe, ReportIdOf, KeysApart;
    var rs, set_ := ReportsOf(t.reports, t.occurrences, system), ReportsIn(a, system, text);
    forall i, j | 0 <= i < j < |t.reports| ensures t.reports[i].reportId != t.reports[j].reportId {
      RowIdsDistinct(t, a, text, i, j);
    }
    ReportsOfDistinct(t.reports, t.occurrences, system);
    SameReports(t, a, system, text);
    SeparatesReports(a, system, text, rs);
    ReportLeIsPreorder();
    SortIsListing(rs, set_, ReportLe);
  }

  lemma SameReports(t: Tables, a: Ledger, system: string, text: TextServices)
    requires Facts(t, a, text)
    ensures forall r :: r in ReportsOf(t.reports, t.occurrences, system) <==> r in ReportsIn(a, system, text)
  {
    hide Sound, BuildReport, ToReport, OccurrenceFacts, ScoreFacts, Distinct, ReportIdOf;
    var rs := ReportsOf(t.reports, t.occurrences, system);
    ReportsOfMeans(t.reports, t.occurrences, system);
    hide ReportsOf;
    forall r | r in ReportsIn(a, system, text) ensures r in rs {
      var x :| x in a && x.system == system && r == ToReport(x, text);
      BuildsSubmission(t, a, x, text);
      assert RowOf(x, text) in t.reports;
    }
    forall r | r in rs ensures r in ReportsIn(a, system, text) {
      var row :| row in t.reports && row.system == system && r == BuildReport(row, t.occurrences);
      assert RowIn(a, row, text);
      var x :| x in a && RowOf(x, text) == row;
      BuildsSubmission(t, a, x, text);
    }
  }

  lemma SeparatesReports(a: Ledger, system: string, text: TextServices, rs: seq<Report>)
    requires Sound(a) && KeysApart(a, text) && forall r :: r in rs ==> r in ReportsIn(a, system, text)
    ensures Separates(ReportLe, rs)
  {
    StrLeIsTotal();
    hide Sound, ReportsIn, KeysApart;
    forall p, q | p in rs && q in rs && ReportLe(p, q) && ReportLe(q, p) ensures p == q {
      assert StrLe(p.reportId, q.reportId) && StrLe(q.reportId, p.reportId);
      ReportsAreDistinct(a, system, text, p, q);
    }
  }
}
