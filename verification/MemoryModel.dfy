/** Ingested reports as a set, and the history every store holding that set must show. */
module MemoryModel {
  import opened Common
  import opened Orders
  import opened Text
  import opened Vocabulary
  import opened Coverage
  import opened Lifecycle
  import opened LifecycleLaws

  /** The parts of a finding that are stored but never looked at by the lifecycle. */
  datatype Details =
    Details(description: string, recommendation: string, confidence: int, technique: Option<string>,
            evidence: seq<string>)

  datatype Finding = Finding(
    findingId: FindingId,
    title: string,
    severity: Severity,
    kind: FindingKind,
    assessment: AssessmentState,
    source: string,
    inferred: bool,
    details: Details)

  datatype Score = Score(
    version: string, score: int, risk: string, critical: int, high: int, medium: int, low: int, info: int)

  datatype Origin = NativeSystemId | HostnameFallback

  /** A normalised report, bound to a system, with the digest of its canonical form. */
  datatype Submission = Submission(
    system: string,
    digest: string,
    origin: Origin,
    schema: string,
    generatedAt: int,
    coverage: CoverageObject,
    score: Score,
    findings: seq<Finding>)

  datatype Outcome = Ingested(reportId: string) | Duplicate(reportId: string) | IdentityConflict | Failed

  predicate ValidScore(s: Score) {
    && s.critical >= 0 && s.high >= 0 && s.medium >= 0 && s.low >= 0 && s.info >= 0
    && 0 <= s.score <= 100 && (s.version == "1" || s.version == "2") && s.risk != ""
  }

  ghost predicate DistinctFindings(fs: seq<Finding>) {
    forall i, j :: 0 <= i < j < |fs| ==> fs[i].findingId != fs[j].findingId
  }

  /** What the transaction accepts: a sound score row, and no finding twice. */
  ghost predicate Acceptable(x: Submission) {
    ValidScore(x.score) && DistinctFindings(x.findings)
  }

  type Ledger = set<Submission>

  ghost predicate Known(a: Ledger, digest: string) {
    exists x :: x in a && x.digest == digest
  }

  /** The submissions a store can hold: acceptable, with real digests, no digest twice. */
  ghost predicate Sound(a: Ledger) {
    && (forall x :: x in a ==> Acceptable(x) && IsHexDigest(x.digest))
    && (forall x, y :: x in a && y in a && x.digest == y.digest ==> x == y)
  }

  ghost function Owner(a: Ledger, digest: string): (x: Submission)
    requires Known(a, digest)
    ensures x in a && x.digest == digest
  {
    var x :| x in a && x.digest == digest;
    x
  }

  ghost function Accept(a: Ledger, x: Submission): Ledger {
    if Known(a, x.digest) || !Acceptable(x) then a else a + {x}
  }

  ghost function AcceptAll(a: Ledger, xs: seq<Submission>): Ledger {
    if xs == [] then a else Accept(AcceptAll(a, xs[..|xs| - 1]), xs[|xs| - 1])
  }

  function FindingLe(x: Finding, y: Finding): bool { StrLe(x.findingId, y.findingId) }

  /** Strict re-ingestion checks the stored rows against the report in hand. */
  ghost predicate Agrees(stored: Submission, x: Submission) {
    && stored.origin == NativeSystemId && ValidScore(x.score)
    && stored.generatedAt == x.generatedAt && stored.schema == x.schema && stored.coverage == x.coverage
    && stored.score == x.score
    && Sort(stored.findings, FindingLe) == Sort(x.findings, FindingLe)
  }

  function ReportIdOf(system: string, digest: string, text: TextServices): string {
    text.OpaqueId("report", [system, digest])
  }

  ghost function OutcomeOf(a: Ledger, x: Submission, strict: bool, text: TextServices): Outcome {
    if Known(a, x.digest) then
      var owner := Owner(a, x.digest);
      if owner.system != x.system then (if strict then Failed else IdentityConflict)
      else if strict && !Agrees(owner, x) then Failed
      else Duplicate(ReportIdOf(x.system, x.digest, text))
    else if !Acceptable(x) then Failed
    else Ingested(ReportIdOf(x.system, x.digest, text))
  }

  lemma AcceptKeepsSound(a: Ledger, x: Submission)
    requires Sound(a) && IsHexDigest(x.digest)
    ensures Sound(Accept(a, x))
  {
    hide Acceptable, IsHexDigest;
  }

  /** A digest is a fingerprint of the whole submission. */
  ghost predicate Fingerprints(xs: seq<Submission>) {
    forall x, y :: x in xs && y in xs && x.digest == y.digest ==> x == y
  }

  lemma KnownGrows(a: Ledger, b: Ledger, digest: string)
    requires a <= b
    ensures Known(a, digest) ==> Known(b, digest)
  {
  }

  /** After any run, the ledger holds what it held plus every acceptable submission with a new digest. */
  lemma {:induction false} AcceptAllMeans(a: Ledger, xs: seq<Submission>)
    requires Fingerprints(xs)
    ensures forall x :: x in AcceptAll(a, xs) <==> x in a || (x in xs && Acceptable(x) && !Known(a, x.digest))
  {
    hide Acceptable;
    if xs != [] {
      var init, last := xs[..|xs| - 1], xs[|xs| - 1];
      assert xs == init + [last];
      assert forall x :: x in init ==> x in xs;
      AcceptAllMeans(a, init);
      var before := AcceptAll(a, init);
      if Known(before, last.digest) {
        var y :| y in before && y.digest == last.digest;
        if y !in a {
          assert y in xs && last in xs;
          assert y == last;
        } else {
          assert Known(a, last.digest);
        }
      } else {
        KnownGrows(a, before, last.digest);
      }
    }
  }

  /** Ingestion order and repeats are forgotten. */
  lemma Confluence(a: Ledger, xs: seq<Submission>, ys: seq<Submission>)
    requires Fingerprints(xs) && Fingerprints(ys)
    requires forall x :: x in xs <==> x in ys
    ensures AcceptAll(a, xs) == AcceptAll(a, ys)
  {
    AcceptAllMeans(a, xs);
    AcceptAllMeans(a, ys);
    hide AcceptAll, Acceptable, Known;
  }

  /** A report that went in once is a duplicate ever after, and changes nothing. */
  lemma RepeatIsDuplicate(a: Ledger, x: Submission, more: seq<Submission>, strict: bool, text: TextServices)
    requires Sound(a) && IsHexDigest(x.digest) && !Known(a, x.digest) && Acceptable(x)
    requires strict ==> x.origin == NativeSystemId
    requires Fingerprints(more)
    ensures Accept(AcceptAll(Accept(a, x), more), x) == AcceptAll(Accept(a, x), more)
    ensures OutcomeOf(AcceptAll(Accept(a, x), more), x, strict, text) == Duplicate(ReportIdOf(x.system, x.digest, text))
  {
    var first := Accept(a, x);
    AcceptAllMeans(first, more);
    var later := AcceptAll(first, more);
    assert x in later;
    assert Known(later, x.digest);
    var owner := Owner(later, x.digest);
    assert owner in first;
    assert owner == x;
    hide AcceptAll, ReportIdOf;
  }

  // ----- the history of one system

  function OccurrenceOf(f: Finding, generatedAt: int): Occurrence {
    Occurrence(f.findingId, generatedAt, f.title, f.severity, f.kind, f.assessment, f.source, f.inferred)
  }

  function OccurrencesOf(fs: seq<Finding>, generatedAt: int): seq<Occurrence> {
    if fs == [] then [] else [OccurrenceOf(fs[0], generatedAt)] + OccurrencesOf(fs[1..], generatedAt)
  }

  function OccurrenceLe(a: Occurrence, b: Occurrence): bool { StrLe(a.findingId, b.findingId) }

  /** Reports in time order, ties broken by report id. */
  function ReportLe(a: Report, b: Report): bool {
    a.generatedAt < b.generatedAt || (a.generatedAt == b.generatedAt && StrLe(a.reportId, b.reportId))
  }

  function ToReport(x: Submission, text: TextServices): Report {
    Report(ReportIdOf(x.system, x.digest, text), x.generatedAt, Some(x.coverage),
           Sort(OccurrencesOf(x.findings, x.generatedAt), OccurrenceLe))
  }

  ghost function ReportsIn(a: Ledger, system: string, text: TextServices): set<Report> {
    set x | x in a && x.system == system :: ToReport(x, text)
  }

  /** The history of a system is a function of the set of its submissions. */
  ghost function HistoryIn(a: Ledger, system: string, text: TextServices): History {
    Listing(ReportsIn(a, system, text), ReportLe)
  }

  lemma ReportLeIsPreorder()
    ensures Preorder(ReportLe)
  {
    StrLeIsTotal();
    hide StrLe;
  }

  /** The texts whose digests name the reports of a ledger. */
  ghost function ReportTexts(a: Ledger): set<string> {
    set x | x in a :: NulJoin([x.system, x.digest])
  }

  /** What keying reports by digest relies on: the reports of this ledger have digests of their own. */
  ghost predicate KeysApart(a: Ledger, text: TextServices) {
    text.Valid() && text.CollisionFree(ReportTexts(a))
  }

  /** Report ids are digests of (system, content digest), and determine both, whatever the system's text. */
  lemma ReportIdDetermines(inputs: set<string>, s1: string, d1: string, s2: string, d2: string, text: TextServices)
    requires IsHexDigest(d1) && IsHexDigest(d2) && text.CollisionFree(inputs)
    requires NulJoin([s1, d1]) in inputs && NulJoin([s2, d2]) in inputs
    requires ReportIdOf(s1, d1, text) == ReportIdOf(s2, d2, text)
    ensures s1 == s2 && d1 == d2
  {
    text.OpaqueIdDeterminesText(inputs, "report", [s1, d1], [s2, d2]);
    var a, b := NulJoin([s1, d1]), NulJoin([s2, d2]);
    assert [s1, d1][1..] == [d1] && [s2, d2][1..] == [d2];
    assert NulJoin([d1]) == d1 && NulJoin([d2]) == d2;
    assert a == s1 + ['\0'] + d1 && b == s2 + ['\0'] + d2;
    assert a[|a| - 64..] == d1 && b[|b| - 64..] == d2;
    assert a[..|a| - 65] == s1 && b[..|b| - 65] == s2;
  }

  lemma ReportTextIn(a: Ledger, x: Submission)
    requires x in a
    ensures NulJoin([x.system, x.digest]) in ReportTexts(a)
  {
  }

  /** Within a ledger the id of a report says which submission it is. */
  lemma SameIdSame(a: Ledger, x: Submission, y: Submission, text: TextServices)
    requires Sound(a) && KeysApart(a, text) && x in a && y in a
    requires ReportIdOf(x.system, x.digest, text) == ReportIdOf(y.system, y.digest, text)
    ensures x == y
  {
    hide IsHexDigest, Acceptable, ReportIdOf, NulJoin, TextServices.CollisionFree;
    ReportTextIn(a, x);
    ReportTextIn(a, y);
    ReportIdDetermines(ReportTexts(a), x.system, x.digest, y.system, y.digest, text);
    SameDigestSame(a, x, y);
  }

  lemma {:induction false} OccurrencesAt(fs: seq<Finding>, generatedAt: int)
    ensures |OccurrencesOf(fs, generatedAt)| == |fs|
    ensures forall i :: 0 <= i < |fs| ==> OccurrencesOf(fs, generatedAt)[i] == OccurrenceOf(fs[i], generatedAt)
  {
    if fs != [] { OccurrencesAt(fs[1..], generatedAt); }
  }

  lemma SortedIdsStayDistinct(os: seq<Occurrence>)
    requires DistinctOccurrences(os)
    ensures DistinctOccurrences(Sort(os, OccurrenceLe))
  {
    var sorted := Sort(os, OccurrenceLe);
    SortIsPermutation(os, OccurrenceLe);
    assert Distinct(os);
    SortKeepsDistinct(os, OccurrenceLe);
    hide OccurrenceLe, Sort;
    forall i, j | 0 <= i < j < |sorted| ensures sorted[i].findingId != sorted[j].findingId {
      assert sorted[i] in os && sorted[j] in os && sorted[i] != sorted[j];
    }
  }

  lemma ReportIsWellFormed(x: Submission, text: TextServices)
    requires DistinctFindings(x.findings)
    ensures WellFormedReport(ToReport(x, text))
  {
    var os := OccurrencesOf(x.findings, x.generatedAt);
    OccurrencesAt(x.findings, x.generatedAt);
    assert DistinctOccurrences(os);
    SortedIdsStayDistinct(os);
    SortIsPermutation(os, OccurrenceLe);
    hide Sort, OccurrenceLe, OccurrencesOf, ReportIdOf;
    forall o | o in Sort(os, OccurrenceLe) ensures o.observedAt == x.generatedAt {
      assert o in os;
    }
  }

  /** A report of the set belongs to one submission, and its id says which. */
  lemma ReportIn(a: Ledger, system: string, text: TextServices, r: Report) returns (x: Submission)
    requires Sound(a) && r in ReportsIn(a, system, text)
    ensures x in a && x.system == system && r == ToReport(x, text)
    ensures DistinctFindings(x.findings) && IsHexDigest(x.digest) && r.reportId == ReportIdOf(x.system, x.digest, text)
  {
    hide IsHexDigest, StrLe, ValidScore;
    x :| x in a && x.system == system && r == ToReport(x, text);
    assert Acceptable(x);
  }

  lemma ReportsAreDistinct(a: Ledger, system: string, text: TextServices, p: Report, q: Report)
    requires Sound(a) && KeysApart(a, text) && p in ReportsIn(a, system, text) && q in ReportsIn(a, system, text)
    requires p.reportId == q.reportId
    ensures p == q
  {
    hide Sound, ReportsIn, IsHexDigest, ReportIdOf, ToReport, KeysApart;
    var x := ReportIn(a, system, text, p);
    var y := ReportIn(a, system, text, q);
    SameIdSame(a, x, y, text);
  }

  lemma SameDigestSame(a: Ledger, x: Submission, y: Submission)
    requires Sound(a) && x in a && y in a && x.digest == y.digest
    ensures x == y
  {
  }

  lemma ListedInOrder(h: seq<Report>)
    requires Distinct(h) && Sorted(h, ReportLe)
    requires forall p, q :: p in h && q in h && p.reportId == q.reportId ==> p == q
    ensures forall i, j :: 0 <= i < j < |h| ==> h[i].reportId != h[j].reportId
    ensures forall i, j :: 0 <= i < j < |h| ==> h[i].generatedAt <= h[j].generatedAt
  {
    hide StrLe;
    forall i, j | 0 <= i < j < |h| ensures h[i].reportId != h[j].reportId {
      assert h[i] in h && h[j] in h && h[i] != h[j];
    }
  }

  lemma HistoryMembers(a: Ledger, system: string, text: TextServices)
    ensures Distinct(HistoryIn(a, system, text)) && Sorted(HistoryIn(a, system, text), ReportLe)
    ensures forall r :: r in HistoryIn(a, system, text) <==> r in ReportsIn(a, system, text)
  {
    ReportLeIsPreorder();
    ListingFacts(ReportsIn(a, system, text), ReportLe);
  }

  /** Every history a store can hold is well formed, so all laws of the lifecycle hold of it. */
  lemma HistoryIsWellFormed(a: Ledger, system: string, text: TextServices)
    requires Sound(a) && KeysApart(a, text)
    ensures WellFormed(HistoryIn(a, system, text))
    ensures forall r :: r in HistoryIn(a, system, text) <==> r in ReportsIn(a, system, text)
  {
    hide ReportLe, HistoryIn, WellFormedReport, Sound, ReportsIn, ToReport, IsHexDigest, ReportIdOf, Sorted, KeysApart;
    var h := HistoryIn(a, system, text);
    HistoryMembers(a, system, text);
    forall i | 0 <= i < |h| ensures WellFormedReport(h[i]) {
      var x := ReportIn(a, system, text, h[i]);
      ReportIsWellFormed(x, text);
    }
    forall p, q | p in h && q in h && p.reportId == q.reportId ensures p == q {
      ReportsAreDistinct(a, system, text, p, q);
    }
    ListedInOrder(h);
  }
}
