/** Transactional ingestion: each commit rewrites the derived tables from the stored reports. */
module Ingestion {
  import opened Common
  import opened Orders
  import opened Text
  import opened Lifecycle
  import opened LifecycleLaws
  import opened LifecycleEngine
  import opened MemoryModel
  import opened MemoryTables
  import opened MemoryInvariant
  import StoredRows

  // ----- queries

  function FirstDigest(rows: seq<ReportRow>, digest: string): Option<ReportRow> {
    if rows == [] then None
    else if rows[0].digest == digest then Some(rows[0])
    else FirstDigest(rows[1..], digest)
  }

  function FirstOwn(rows: seq<ReportRow>, system: string, digest: string): Option<ReportRow> {
    if rows == [] then None
    else if rows[0].system == system && rows[0].digest == digest then Some(rows[0])
    else FirstOwn(rows[1..], system, digest)
  }

  lemma {:induction false} FirstDigestMeans(rows: seq<ReportRow>, digest: string)
    ensures FirstDigest(rows, digest).Some? <==> exists r :: r in rows && r.digest == digest
    ensures FirstDigest(rows, digest).Some? ==>
      FirstDigest(rows, digest).value in rows && FirstDigest(rows, digest).value.digest == digest
  {
    if rows != [] {
      assert rows == [rows[0]] + rows[1..];
      FirstDigestMeans(rows[1..], digest);
    }
  }

  lemma {:induction false} FirstOwnMeans(rows: seq<ReportRow>, system: string, digest: string)
    ensures FirstOwn(rows, system, digest).Some? <==> exists r :: r in rows && r.system == system && r.digest == digest
    ensures FirstOwn(rows, system, digest).Some? ==>
      var r := FirstOwn(rows, system, digest).value;
      r in rows && r.system == system && r.digest == digest
  {
    if rows != [] {
      assert rows == [rows[0]] + rows[1..];
      FirstOwnMeans(rows[1..], system, digest);
    }
  }

  lemma RowOfOwner(t: Tables, a: Ledger, row: ReportRow, text: TextServices)
    requires Sound(a) && ReportFacts(t, a, text) && row in t.reports
    ensures Known(a, row.digest) && row == RowOf(Owner(a, row.digest), text)
  {
    hide IsHexDigest, Acceptable, ReportIdOf;
    assert RowIn(a, row, text);
    var x :| x in a && RowOf(x, text) == row;
    SameDigestSame(a, x, Owner(a, row.digest));
  }

  /** Looking a digest up in the table finds its owner in the ledger. */
  lemma DigestLookup(t: Tables, a: Ledger, digest: string, text: TextServices)
    requires Sound(a) && ReportFacts(t, a, text)
    ensures FirstDigest(t.reports, digest).Some? <==> Known(a, digest)
    ensures Known(a, digest) ==> FirstDigest(t.reports, digest) == Some(RowOf(Owner(a, digest), text))
  {
    FirstDigestMeans(t.reports, digest);
    assert Known(a, digest) ==> RowOf(Owner(a, digest), text) in t.reports;
    var found := FirstDigest(t.reports, digest);
    if found.Some? { RowOfOwner(t, a, found.value, text); }
  }

  lemma OwnLookup(t: Tables, a: Ledger, system: string, digest: string, text: TextServices)
    requires Sound(a) && ReportFacts(t, a, text)
    ensures FirstOwn(t.reports, system, digest).Some? <==> Known(a, digest) && Owner(a, digest).system == system
    ensures FirstOwn(t.reports, system, digest).Some? ==>
      FirstOwn(t.reports, system, digest) == Some(RowOf(Owner(a, digest), text))
  {
    FirstOwnMeans(t.reports, system, digest);
    assert Known(a, digest) ==> RowOf(Owner(a, digest), text) in t.reports;
    var found := FirstOwn(t.reports, system, digest);
    if found.Some? { RowOfOwner(t, a, found.value, text); }
  }

  // ----- strict verification of a duplicate

  function RowLe(a: OccurrenceRow, b: OccurrenceRow): bool { StrLe(a.occurrence.findingId, b.occurrence.findingId) }

  predicate VerifyDuplicate(t: Tables, row: ReportRow, x: Submission, text: TextServices) {
    var id := IdOf(x, text);
    && row == ReportRow(id, x.system, x.generatedAt, x.schema, x.digest, NativeSystemId, x.coverage)
    && id in t.scores && ValidScore(x.score) && t.scores[id] == ScoreRow(x.system, x.score, x.generatedAt)
    && Sort(RowsFor(t.occurrences, x.system, id), RowLe) == OccurrenceRowsOf(x, Sort(x.findings, FindingLe), text)
  }

  lemma {:induction false} InsertCommutes(x: Submission, f: Finding, fs: seq<Finding>, text: TextServices)
    ensures OccurrenceRowsOf(x, Insert(f, fs, FindingLe), text)
      == Insert(OccurrenceRowOf(x, f, text), OccurrenceRowsOf(x, fs, text), RowLe)
  {
    hide IdOf, StrLe;
    if fs != [] {
      var rows := OccurrenceRowsOf(x, fs, text);
      assert rows[0] == OccurrenceRowOf(x, fs[0], text) && rows[1..] == OccurrenceRowsOf(x, fs[1..], text);
      if StrLe(f.findingId, fs[0].findingId) {
        assert ([f] + fs)[1..] == fs;
      } else {
        InsertCommutes(x, f, fs[1..], text);
        assert ([fs[0]] + Insert(f, fs[1..], FindingLe))[1..] == Insert(f, fs[1..], FindingLe);
      }
    }
  }

  lemma {:induction false} SortCommutes(x: Submission, fs: seq<Finding>, text: TextServices)
    ensures OccurrenceRowsOf(x, Sort(fs, FindingLe), text) == Sort(OccurrenceRowsOf(x, fs, text), RowLe)
  {
    if fs != [] {
      SortCommutes(x, fs[1..], text);
      InsertCommutes(x, fs[0], Sort(fs[1..], FindingLe), text);
      var rows := OccurrenceRowsOf(x, fs, text);
      assert rows[0] == OccurrenceRowOf(x, fs[0], text) && rows[1..] == OccurrenceRowsOf(x, fs[1..], text);
      hide OccurrenceRowsOf, OccurrenceRowOf, Insert;
    }
  }

  lemma RowsDetermineFindings(x: Submission, y: Submission, fs: seq<Finding>, gs: seq<Finding>, text: TextServices)
    requires OccurrenceRowsOf(x, fs, text) == OccurrenceRowsOf(y, gs, text)
    ensures fs == gs
  {
    OccurrenceRowsAt(x, fs, text);
    OccurrenceRowsAt(y, gs, text);
    hide OccurrenceRowsOf, IdOf;
    forall i | 0 <= i < |fs| ensures fs[i] == gs[i] {
      assert OccurrenceRowOf(x, fs[i], text) == OccurrenceRowOf(y, gs[i], text);
    }
  }

  lemma SameKeySameRow(x: Submission, y: Submission, fs: seq<Finding>, text: TextServices)
    requires x.system == y.system && x.digest == y.digest && x.generatedAt == y.generatedAt
    ensures OccurrenceRowsOf(x, fs, text) == OccurrenceRowsOf(y, fs, text)
  {
    OccurrenceRowsAt(x, fs, text);
    OccurrenceRowsAt(y, fs, text);
    hide OccurrenceRowsOf, ReportIdOf;
  }

  /** Verification passes exactly when the stored submission agrees with the one in hand. */
  lemma VerifyMeans(t: Tables, a: Ledger, x: Submission, text: TextServices)
    requires Facts(t, a, text) && Known(a, x.digest) && Owner(a, x.digest).system == x.system
    ensures VerifyDuplicate(t, RowOf(Owner(a, x.digest), text), x, text) <==> Agrees(Owner(a, x.digest), x)
  {
    var o := Owner(a, x.digest);
    var id := IdOf(x, text);
    assert IdOf(o, text) == id;
    assert t.scores[id] == ScoreRowOf(o) && id in t.scores;
    assert RowsFor(t.occurrences, x.system, id) == OccurrenceRowsOf(o, o.findings, text);
    hide Facts, ReportIdOf, Owner, OccurrenceRowsOf, RowsFor, Sort, FindingLe, RowLe;
    SortCommutes(o, o.findings, text);
    if o.generatedAt == x.generatedAt { SameKeySameRow(o, x, Sort(o.findings, FindingLe), text); }
    var stored, inHand := Sort(o.findings, FindingLe), Sort(x.findings, FindingLe);
    if OccurrenceRowsOf(o, stored, text) == OccurrenceRowsOf(x, inHand, text) {
      RowsDetermineFindings(o, x, stored, inHand, text);
    }
  }

  // ----- the incremental upsert, later overridden

  function Upsert(prior: Option<FindingRow>, f: Finding, generatedAt: int): FindingRow {
    match prior
    case None =>
      FindingRow(Summary(f.findingId, generatedAt, generatedAt, 1, Active, 0, None, f.title, f.severity, f.kind,
                         f.assessment, f.source, f.inferred), true, false)
    case Some(p) =>
      FindingRow(p.summary.(
        lastSeen := if generatedAt > p.summary.lastSeen then generatedAt else p.summary.lastSeen,
        count := p.summary.count + 1, state := Active, title := f.title, severity := f.severity, kind := f.kind,
        assessment := f.assessment, source := f.source, inferred := f.inferred), true, true)
  }

  /** A row after one more sighting: the finding as now reported, from its earliest row to its latest time. */
  ghost predicate ShowsSighting(row: FindingRow, prior: Option<FindingRow>, f: Finding, at: int) {
    var s := row.summary;
    && row.active && s.state == Active && s.title == f.title && s.severity == f.severity && s.kind == f.kind
    && s.assessment == f.assessment && s.source == f.source && s.inferred == f.inferred
    && (prior.None? ==>
          && s.findingId == f.findingId && s.firstSeen == at && s.lastSeen == at && s.count == 1 && !row.recurring
          && s.reopened == 0 && s.lastResolved == None)
    && (prior.Some? ==>
          && s.findingId == prior.value.summary.findingId && s.firstSeen == prior.value.summary.firstSeen
          && s.lastSeen >= at && s.lastSeen >= prior.value.summary.lastSeen
          && (s.lastSeen == at || s.lastSeen == prior.value.summary.lastSeen)
          && s.count == prior.value.summary.count + 1 && row.recurring
          && s.reopened == prior.value.summary.reopened && s.lastResolved == prior.value.summary.lastResolved)
  }

  function RowAt(findings: map<(string, FindingId), FindingRow>, key: (string, FindingId)): Option<FindingRow> {
    if key in findings then Some(findings[key]) else None
  }

  /** On its own the upsert depends on the order of ingestion; hence the rebuild. */
  lemma UpsertAloneIsOrderDependent(f: Finding, g: Finding, early: int, late: int)
    requires early < late && f.findingId == g.findingId
    ensures Upsert(Some(Upsert(None, f, early)), g, late).summary.firstSeen
      != Upsert(Some(Upsert(None, g, late)), f, early).summary.firstSeen
  {
  }

  /** Of the rows of a system, those with a derived state not in left hold that state; all else is as before. */
  ghost predicate Updated(before: map<(string, FindingId), FindingRow>, after: map<(string, FindingId), FindingRow>,
                          system: string, states: States, left: set<FindingId>)
  {
    && after.Keys == before.Keys
    && forall s, id :: (s, id) in after ==>
         after[(s, id)] ==
           if s == system && id in states && id !in left then FindingRowOf(states[id]) else before[(s, id)]
  }

  lemma UpdatedStep(before: map<(string, FindingId), FindingRow>, now: map<(string, FindingId), FindingRow>,
                    system: string, states: States, left: set<FindingId>, id: FindingId)
    requires Updated(before, now, system, states, left) && id in left && id in states
    ensures Updated(before,
                    if (system, id) in now then now[(system, id) := FindingRowOf(states[id])] else now,
                    system, states, left - {id})
  {
    hide FindingRowOf;
  }

  predicate Booked(os: seq<OccurrenceRow>, reportId: string, id: FindingId) {
    exists o :: o in os && o.reportId == reportId && o.occurrence.findingId == id
  }

  /** The tables after the first n findings of an accepted report have been written. */
  ghost predicate Written(t: Tables, w: Tables, x: Submission, n: nat, text: TextServices)
    requires n <= |x.findings|
  {
    && w.reports == t.reports + [RowOf(x, text)]
    && w.scores == t.scores[IdOf(x, text) := ScoreRowOf(x)]
    && w.events == t.events
    && w.occurrences == t.occurrences + OccurrenceRowsOf(x, x.findings[..n], text)
    && (forall system, id :: (system, id) in w.findings <==>
          (system, id) in t.findings || (system == x.system && HasFinding(x.findings[..n], id)))
    && (forall system, id :: (system, id) in t.findings && system != x.system ==>
          w.findings[(system, id)] == t.findings[(system, id)])
  }

  lemma WrittenStep(t: Tables, w: Tables, w': Tables, x: Submission, n: nat, row: FindingRow, text: TextServices)
    requires n < |x.findings| && Written(t, w, x, n, text)
    requires w' == w.(findings := w.findings[(x.system, x.findings[n].findingId) := row],
                      occurrences := w.occurrences + [OccurrenceRowOf(x, x.findings[n], text)])
    ensures Written(t, w', x, n + 1, text)
  {
    var fs, f := x.findings[..n], x.findings[n];
    assert x.findings[..n + 1] == fs + [f];
    OccurrenceRowsAt(x, fs, text);
    OccurrenceRowsAt(x, fs + [f], text);
    hide IdOf, RowOf, OccurrenceRowOf;
    assert OccurrenceRowsOf(x, fs + [f], text) == OccurrenceRowsOf(x, fs, text) + [OccurrenceRowOf(x, f, text)] by {
      hide OccurrenceRowsOf;
    }
    hide OccurrenceRowsOf;
    forall id ensures HasFinding(fs + [f], id) <==> HasFinding(fs, id) || id == f.findingId {
      HasOneMore(fs, f, id);
    }
    hide HasFinding;
  }

  lemma HasOneMore(fs: seq<Finding>, f: Finding, id: FindingId)
    ensures HasFinding(fs + [f], id) <==> HasFinding(fs, id) || id == f.findingId
  {
    assert f in fs + [f];
    if HasFinding(fs, id) {
      var g :| g in fs && g.findingId == id;
      assert g in fs + [f];
    }
  }

  /** Finding n is already booked under the new report iff an earlier finding has its id. */
  lemma BookedMeansRepeated(t: Tables, w: Tables, a: Ledger, x: Submission, n: nat, text: TextServices)
    requires n < |x.findings| && OccurrenceFacts(t, a, text) && !IdIn(a, IdOf(x, text), text)
    requires Written(t, w, x, n, text)
    ensures Booked(w.occurrences, IdOf(x, text), x.findings[n].findingId)
      <==> exists k :: 0 <= k < n && x.findings[k].findingId == x.findings[n].findingId
  {
    var fs := x.findings[..n];
    var rows := OccurrenceRowsOf(x, fs, text);
    OccurrenceRowsAt(x, fs, text);
    hide IdOf, RowOf, OccurrenceRowsOf, HasFinding, RowsFor;
    if k :| 0 <= k < n && x.findings[k].findingId == x.findings[n].findingId {
      assert rows[k] in w.occurrences && rows[k].occurrence.findingId == x.findings[n].findingId;
    }
    if Booked(w.occurrences, IdOf(x, text), x.findings[n].findingId) {
      var o :| o in w.occurrences && o.reportId == IdOf(x, text) && o.occurrence.findingId == x.findings[n].findingId;
      assert o in t.occurrences ==> IdIn(a, o.reportId, text);
      var k :| 0 <= k < |rows| && rows[k] == o;
      assert x.findings[k] == fs[k];
    }
  }

  lemma BookedDecides(t: Tables, w: Tables, a: Ledger, x: Submission, n: nat, text: TextServices)
    requires n < |x.findings| && OccurrenceFacts(t, a, text) && !IdIn(a, IdOf(x, text), text)
    requires Written(t, w, x, n, text) && DistinctFindings(x.findings[..n])
    ensures Booked(w.occurrences, IdOf(x, text), x.findings[n].findingId) <==> !DistinctFindings(x.findings[..n + 1])
    ensures !DistinctFindings(x.findings[..n + 1]) ==> !DistinctFindings(x.findings)
  {
    BookedMeansRepeated(t, w, a, x, n, text);
    hide Booked, Written, OccurrenceFacts, IdIn, IdOf;
    var fs, more := x.findings[..n], x.findings[..n + 1];
    assert more == fs + [x.findings[n]];
    if k :| 0 <= k < n && x.findings[k].findingId == x.findings[n].findingId {
      assert more[k].findingId == more[n].findingId;
    }
  }

  lemma NoFindings(fs: seq<Finding>)
    ensures DistinctFindings(fs[..0])
  {
  }

  class MemoryDatabase {
    var tables: Tables
    const text: TextServices
    /** The submissions accepted so far. */
    ghost var accepted: Ledger

    ghost predicate Valid()
      reads this
    {
      KeysApart(accepted, text) && Holds(tables, accepted, text)
    }

    constructor (text: TextServices)
      requires text.Valid()
      ensures Valid() && accepted == {} && this.text == text
    {
      this.text := text;
      tables := Tables([], map[], map[], [], []);
      accepted := {};
      new;
      EmptyHolds(tables, text);
    }

    /** Upsert of the finding row, then insertion of the occurrence, which fails on a repeated key. */
    method WriteFinding(x: Submission, f: Finding) returns (ok: bool)
      modifies this`tables
      ensures ok <==> !Booked(old(tables.occurrences), IdOf(x, text), f.findingId)
      ensures ok ==>
        tables == old(tables).(
          findings := old(tables).findings[(x.system, f.findingId) :=
            Upsert(RowAt(old(tables).findings, (x.system, f.findingId)), f, x.generatedAt)],
          occurrences := old(tables).occurrences + [OccurrenceRowOf(x, f, text)])
      ensures ok ==>
        var key := (x.system, f.findingId);
        && key in tables.findings
        && ShowsSighting(tables.findings[key], RowAt(old(tables).findings, key), f, x.generatedAt)
        && |tables.occurrences| == |old(tables).occurrences| + 1
        && StoredRows.ShowsFinding(tables.occurrences[|old(tables).occurrences|], x, f, text)
    {
      StoredRows.RowShowsFinding(x, f, text);
      var key := (x.system, f.findingId);
      var row := Upsert(RowAt(tables.findings, key), f, x.generatedAt);
      tables := tables.(findings := tables.findings[key := row]);
      if Booked(tables.occurrences, IdOf(x, text), f.findingId) { return false; }
      tables := tables.(occurrences := tables.occurrences + [OccurrenceRowOf(x, f, text)]);
      ok := true;
    }

    /** UPDATE of the row of every derived state that has one. */
    method UpdateFindings(system: string, states: map<FindingId, FindingState>, ghost spec: States)
      requires Represents(states, spec)
      modifies this`tables
      ensures tables == old(tables).(findings := tables.findings)
      ensures Updated(old(tables).findings, tables.findings, system, spec, {})
    {
      ghost var before := tables.findings;
      var left := states.Keys;
      while left != {}
        invariant left <= states.Keys
        invariant tables == old(tables).(findings := tables.findings)
        invariant Updated(before, tables.findings, system, spec, left)
        decreases |left|
      {
        var id :| id in left;
        var row := FindingRowOf(states[id].View());
        assert row == FindingRowOf(spec[id]);
        UpdatedStep(before, tables.findings, system, spec, left, id);
        if (system, id) in tables.findings {
          tables := tables.(findings := tables.findings[(system, id) := row]);
        }
        left := left - {id};
        hide Updated, FindingRowOf;
      }
    }

    method InsertEvents(system: string, drafts: seq<Draft>)
      modifies this`tables
      ensures tables == old(tables).(events := old(tables).events + EventRowsOf(system, AsEvents(drafts), text))
    {
      ghost var rows := EventRowsOf(system, AsEvents(drafts), text);
      assert |rows| == |drafts|;
      assert forall i :: 0 <= i < |drafts| ==> rows[i] == EventRowOf(system, AsEvent(drafts[i]), text);
      hide EventRowOf, AsEvent, EventRowsOf, AsEvents;
      for i := 0 to |drafts|
        invariant tables == old(tables).(events := old(tables).events + rows[..i])
      {
        tables := tables.(events := tables.events + [EventRowOf(system, AsEvent(drafts[i]), text)]);
        assert rows[..i + 1] == rows[..i] + [rows[i]];
      }
      assert rows[..|drafts|] == rows;
    }

    /** Rebuild one system's findings and events from its stored reports. */
    method Rebuild(system: string)
      modifies this`tables
      ensures var h := HistoryOf(old(tables), system);
        var states, es := StatesAfter(h, text.casefold), EventsAfter(h, text.casefold);
        && tables == old(tables).(findings := tables.findings, events := tables.events)
        && (h == [] ==> tables == old(tables))
        && (h != [] ==>
              && tables.events == EventsExcept(old(tables).events, system) + EventRowsOf(system, es, text)
              && Updated(old(tables).findings, tables.findings, system, states, {}))
    {
      hide Updated, HistoryOf, StatesAfter, EventsAfter, Represents, AsEvents, EventRowsOf, EventsExcept, FindingRowOf;
      var reports := HistoryOf(tables, system);
      var states, drafts := Derive(reports, text.casefold);
      if reports == [] { return; }
      tables := tables.(events := EventsExcept(tables.events, system));
      UpdateFindings(system, states, StatesAfter(reports, text.casefold));
      InsertEvents(system, drafts);
    }

    /** Everything an accepted report writes before the rebuild; false where a constraint is violated. */
    method WriteReport(x: Submission) returns (ok: bool)
      requires Valid() && KeysApart(accepted + {x}, text) && IsHexDigest(x.digest) && !Known(accepted, x.digest)
      modifies this`tables
      ensures ok <==> Acceptable(x)
      ensures ok ==> Written(old(tables), tables, x, |x.findings|, text)
    {
      ghost var t, a := tables, accepted;
      FreshId(a, x, text);
      HoldsHasOccurrenceFacts(t, a, text);
      hide Holds, IdOf, RowOf, OccurrenceRowsOf, Written, IsHexDigest, Booked, IdIn, KeysApart, OccurrenceFacts, Upsert,
        MemoryDatabase.Valid, RowAt, OccurrenceRowOf, DistinctFindings;
      tables := tables.(reports := tables.reports + [RowOf(x, text)]);
      if !ValidScore(x.score) { return false; }
      tables := tables.(scores := tables.scores[IdOf(x, text) := ScoreRow(x.system, x.score, x.generatedAt)]);
      WrittenStart(t, tables, x, text);
      NoFindings(x.findings);
      for n := 0 to |x.findings|
        invariant Written(t, tables, x, n, text)
        invariant DistinctFindings(x.findings[..n])
      {
        BookedDecides(t, tables, a, x, n, text);
        ghost var w := tables;
        var done := WriteFinding(x, x.findings[n]);
        if !done { return false; }
        WrittenStep(t, w, tables, x, n, tables.findings[(x.system, x.findings[n].findingId)], text);
      }
      assert x.findings[..|x.findings|] == x.findings;
      ok := true;
    }

    method IngestNormalized(x: Submission, strict: bool) returns (outcome: Outcome)
      requires Valid() && KeysApart(accepted + {x}, text) && IsHexDigest(x.digest)
      modifies this
      ensures Valid()
      ensures accepted == Accept(old(accepted), x)
      ensures outcome == OutcomeOf(old(accepted), x, strict, text)
      ensures StoredRows.Answers(outcome, old(accepted), x, strict, text)
      ensures accepted == old(accepted) ==> tables == old(tables)
    {
      hide Holds, Facts, Sound, ReportFacts, ReportIdOf, FirstDigest, FirstOwn, Acceptable, Agrees, VerifyDuplicate,
        IsHexDigest, KeysApart, HistoryOf, Updated, StatesAfter, EventsAfter, EventsExcept, EventRowsOf, Written,
        StoredRows.Answers;
      var saved := tables;
      ghost var a := accepted;
      HoldsParts(tables, a, text);
      StoredRows.OutcomeMeans(a, x, strict, text);
      DigestLookup(tables, a, x.digest, text);
      OwnLookup(tables, a, x.system, x.digest, text);
      var owner := FirstDigest(tables.reports, x.digest);
      if owner.Some? && owner.value.system != x.system {
        return if strict then Failed else IdentityConflict;
      }
      var duplicate := FirstOwn(tables.reports, x.system, x.digest);
      if duplicate.Some? {
        VerifyMeans(tables, a, x, text);
        if strict && !VerifyDuplicate(tables, duplicate.value, x, text) { return Failed; }
        return Duplicate(duplicate.value.reportId);
      }
      assert !Known(a, x.digest);
      var written := WriteReport(x);
      if !written {
        tables := saved;
        return Failed;
      }
      ghost var w := tables;
      Rebuild(x.system);
      CommitHolds(saved, w, tables, a, x, text);
      accepted := accepted + {x};
      outcome := Ingested(IdOf(x, text));
      assert x in accepted && x !in a;
    }

    /** A run: the submissions one call after the other, and what each call answers. */
    method IngestAll(xs: seq<Submission>, strict: bool) returns (outcomes: seq<Outcome>)
      requires Valid() && KeysApart(accepted + Elems(xs), text)
      requires forall x :: x in xs ==> IsHexDigest(x.digest)
      modifies this
      ensures Valid()
      ensures accepted == AcceptAll(old(accepted), xs)
      ensures outcomes == OutcomesOf(old(accepted), xs, strict, text)
    {
      ghost var a := accepted;
      outcomes := [];
      assert xs[..0] == [];
      for i := 0 to |xs|
        invariant Valid() && accepted == AcceptAll(a, xs[..i])
        invariant outcomes == OutcomesOf(a, xs[..i], strict, text)
      {
        RunStep(a, xs, i, strict, text);
        hide MemoryDatabase.Valid, Accept, AcceptAll, OutcomeOf, OutcomesOf, KeysApart, IsHexDigest, Elems;
        assert xs[i] in xs;
        var outcome := IngestNormalized(xs[i], strict);
        outcomes := outcomes + [outcome];
      }
      assert xs[..|xs|] == xs;
    }
  }

  lemma EmptyHolds(t: Tables, text: TextServices)
    requires t == Tables([], map[], map[], [], [])
    ensures Holds(t, {}, text)
  {
    forall system ensures Derived(t, {}, system, text) {
      assert ReportsIn({}, system, text) == {};
      HistoryMembers({}, system, text);
      var h := HistoryIn({}, system, text);
      NonEmptyHasMember(h);
      hide HistoryIn;
    }
  }

  lemma HoldsHasOccurrenceFacts(t: Tables, a: Ledger, text: TextServices)
    requires Holds(t, a, text)
    ensures OccurrenceFacts(t, a, text)
  {
    hide OccurrenceFacts, ReportFacts, ScoreFacts, Sound, Derived;
  }

  lemma HoldsParts(t: Tables, a: Ledger, text: TextServices)
    requires Holds(t, a, text)
    ensures Facts(t, a, text) && Sound(a) && ReportFacts(t, a, text)
  {
    hide OccurrenceFacts, ReportFacts, ScoreFacts, Sound, Derived;
  }

  lemma WrittenStart(t: Tables, w: Tables, x: Submission, text: TextServices)
    requires w == t.(reports := t.reports + [RowOf(x, text)], scores := t.scores[IdOf(x, text) := ScoreRowOf(x)])
    ensures Written(t, w, x, 0, text)
  {
    assert x.findings[..0] == [];
  }

  /** After a successful write and rebuild the tables hold the larger ledger. */
  lemma CommitHolds(t: Tables, w: Tables, t': Tables, a: Ledger, x: Submission, text: TextServices)
    requires Holds(t, a, text) && KeysApart(a + {x}, text) && IsHexDigest(x.digest) && !Known(a, x.digest)
      && Acceptable(x)
    requires Written(t, w, x, |x.findings|, text)
    requires var h := HistoryOf(w, x.system);
      var states, es := StatesAfter(h, text.casefold), EventsAfter(h, text.casefold);
      && t' == w.(findings := t'.findings, events := t'.events)
      && (h == [] ==> t' == w)
      && (h != [] ==>
            && t'.events == EventsExcept(w.events, x.system) + EventRowsOf(x.system, es, text)
            && Updated(w.findings, t'.findings, x.system, states, {}))
    ensures Holds(t', a + {x}, text)
  {
    HoldsParts(t, a, text);
    AcceptKeepsSound(a, x);
    WrittenFacts(t, w, a, x, text);
    FactsIgnoreDerived(w, t', a + {x}, text);
    hide Holds, Facts, Sound, ReportFacts, IdOf, RowOf, IsHexDigest, Acceptable, HistoryOf, StatesAfter, EventsAfter,
      EventRowsOf, EventsExcept, HistoryIn, Written, Updated, FindingsRebuilt;
    HistoryIsSpec(w, a + {x}, x.system, text);
    HistoryNotEmpty(a + {x}, x, text);
    WrittenAreDerived(t, w, a, x, text);
    WrittenThenUpdated(t, w, t', x, StatesIn(a + {x}, x.system, text), text);
    hide StatesIn;
    HoldsExtends(t, t', a, x, text);
  }

  lemma WrittenFacts(t: Tables, w: Tables, a: Ledger, x: Submission, text: TextServices)
    requires Facts(t, a, text) && KeysApart(a + {x}, text) && IsHexDigest(x.digest) && !Known(a, x.digest)
      && Acceptable(x)
    requires Written(t, w, x, |x.findings|, text)
    ensures Facts(w, a + {x}, text)
    ensures w.events == t.events
  {
    assert x.findings[..|x.findings|] == x.findings;
    hide Facts, IdOf, RowOf, IsHexDigest, Acceptable, OccurrenceRowsOf, HasFinding;
    FactsExtend(t, w, a, x, text);
  }

  lemma FactsIgnoreDerived(w: Tables, t': Tables, a: Ledger, text: TextServices)
    requires Facts(w, a, text) && t' == w.(findings := t'.findings, events := t'.events)
    ensures Facts(t', a, text)
  {
    hide Sound, IdOf, OccurrenceRowsOf, RowsFor;
  }

  lemma WrittenAreDerived(t: Tables, w: Tables, a: Ledger, x: Submission, text: TextServices)
    requires Holds(t, a, text) && Sound(a) && Sound(a + {x}) && KeysApart(a + {x}, text)
      && Written(t, w, x, |x.findings|, text)
    ensures forall id :: (x.system, id) in w.findings ==> id in StatesIn(a + {x}, x.system, text)
  {
    assert x.findings[..|x.findings|] == x.findings;
    assert Derived(t, a, x.system, text);
    hide Facts, Sound, IdOf, RowOf, OccurrenceRowsOf, HasFinding, FindingRowOf, StatesIn, EventsShow;
    forall id
      ensures id in StatesIn(a + {x}, x.system, text)
        <==> id in StatesIn(a, x.system, text) || HasFinding(x.findings, id)
    {
      FindingsGrow(a, x, text, id);
    }
  }

  lemma WrittenThenUpdated(t: Tables, w: Tables, t': Tables, x: Submission, states: States, text: TextServices)
    requires Written(t, w, x, |x.findings|, text) && Updated(w.findings, t'.findings, x.system, states, {})
    requires forall id :: (x.system, id) in w.findings ==> id in states
    ensures FindingsRebuilt(t, t', x, states)
  {
    assert x.findings[..|x.findings|] == x.findings;
    hide IdOf, RowOf, OccurrenceRowsOf, HasFinding, FindingRowOf;
  }

  lemma HistoryNotEmpty(a: Ledger, x: Submission, text: TextServices)
    requires x in a
    ensures HistoryIn(a, x.system, text) != []
  {
    HistoryMembers(a, x.system, text);
    assert ToReport(x, text) in ReportsIn(a, x.system, text);
    hide HistoryIn, ReportsIn;
  }

  // ----- whole runs

  /** What the calls of a run answer, each on the ledger the earlier ones left. */
  ghost function OutcomesOf(a: Ledger, xs: seq<Submission>, strict: bool, text: TextServices): seq<Outcome> {
    if xs == [] then []
    else
      var init, last := xs[..|xs| - 1], xs[|xs| - 1];
      OutcomesOf(a, init, strict, text) + [OutcomeOf(AcceptAll(a, init), last, strict, text)]
  }

  lemma {:induction false} AcceptAllAtMost(a: Ledger, xs: seq<Submission>)
    ensures AcceptAll(a, xs) <= a + Elems(xs)
  {
    hide Acceptable, Known;
    if xs != [] {
      AcceptAllAtMost(a, xs[..|xs| - 1]);
      assert xs[|xs| - 1] in xs && forall x :: x in xs[..|xs| - 1] ==> x in xs;
    }
  }

  lemma RunStep(a: Ledger, xs: seq<Submission>, i: nat, strict: bool, text: TextServices)
    requires i < |xs| && KeysApart(a + Elems(xs), text)
    ensures AcceptAll(a, xs[..i + 1]) == Accept(AcceptAll(a, xs[..i]), xs[i])
    ensures OutcomesOf(a, xs[..i + 1], strict, text)
      == OutcomesOf(a, xs[..i], strict, text) + [OutcomeOf(AcceptAll(a, xs[..i]), xs[i], strict, text)]
    ensures KeysApart(AcceptAll(a, xs[..i]) + {xs[i]}, text)
  {
    assert xs[..i + 1][..i] == xs[..i];
    AcceptAllAtMost(a, xs[..i]);
    hide KeysApart, Accept, OutcomeOf;
    KeysStayApart(AcceptAll(a, xs[..i]) + {xs[i]}, a + Elems(xs), text);
  }

  /** The same finding rows and the same events, in every system. */
  ghost predicate SameView(t: Tables, u: Tables) {
    && (forall system, id :: RowAt(t.findings, (system, id)) == RowAt(u.findings, (system, id)))
    && (forall system :: EventsFor(t.events, system) == EventsFor(u.events, system))
  }

  lemma HoldsSameView(t: Tables, u: Tables, a: Ledger, text: TextServices)
    requires Holds(t, a, text) && Holds(u, a, text)
    ensures SameView(t, u)
  {
    hide Holds, EventsFor, RowAt;
    forall system, id ensures RowAt(t.findings, (system, id)) == RowAt(u.findings, (system, id)) {
      StoresAgree(t, u, a, text, system, id);
      RowsAgree(t, u, (system, id));
    }
    forall system ensures EventsFor(t.events, system) == EventsFor(u.events, system) {
      StoresAgree(t, u, a, text, system, "");
    }
  }

  lemma RowsAgree(t: Tables, u: Tables, key: (string, FindingId))
    requires key in t.findings <==> key in u.findings
    requires key in t.findings ==> t.findings[key] == u.findings[key]
    ensures RowAt(t.findings, key) == RowAt(u.findings, key)
  {
  }

  /**
   * Two stores that held the same ledger and ingested the same submissions, each in its own order
   * and with its own repeats, show the same finding rows and the same events in every system.
   */
  lemma IngestionConfluence(d: MemoryDatabase, e: MemoryDatabase, a: Ledger, xs: seq<Submission>, ys: seq<Submission>)
    requires d.Valid() && e.Valid() && d.text == e.text
    requires d.accepted == AcceptAll(a, xs) && e.accepted == AcceptAll(a, ys)
    requires Fingerprints(xs) && forall x :: x in xs <==> x in ys
    ensures d.accepted == e.accepted && SameView(d.tables, e.tables)
  {
    SameFingerprints(xs, ys);
    Confluence(a, xs, ys);
    hide AcceptAll, Holds, Fingerprints, KeysApart, SameView;
    HoldsSameView(d.tables, e.tables, d.accepted, d.text);
  }

  /** The same on the calls themselves, from any two stores of one ledger. */
  method IngestBothWays(d: MemoryDatabase, e: MemoryDatabase, xs: seq<Submission>, ys: seq<Submission>, strict: bool)
    requires d != e && d.Valid() && e.Valid() && d.text == e.text && d.accepted == e.accepted
    requires KeysApart(d.accepted + Elems(xs), d.text) && forall x :: x in xs ==> IsHexDigest(x.digest)
    requires Fingerprints(xs) && forall x :: x in xs <==> x in ys
    modifies d, e
    ensures d.Valid() && e.Valid() && d.accepted == e.accepted
    ensures SameView(d.tables, e.tables)
  {
    ghost var a := d.accepted;
    assert Elems(xs) == Elems(ys);
    hide *;
    var _ := d.IngestAll(xs, strict);
    var _ := e.IngestAll(ys, strict);
    IngestionConfluence(d, e, a, xs, ys);
  }

  lemma SameFingerprints(xs: seq<Submission>, ys: seq<Submission>)
    requires Fingerprints(xs) && forall x :: x in xs <==> x in ys
    ensures Fingerprints(ys)
  {
  }

  /** The stored row of a finding, read off the reports of its system alone. */
  lemma StoredClosedForm(t: Tables, a: Ledger, system: string, id: FindingId, text: TextServices)
    requires Holds(t, a, text) && KeysApart(a, text)
    ensures var h, row := HistoryIn(a, system, text), RowAt(t.findings, (system, id));
      && (row.None? <==> LastIn(h, id) < 0)
      && (row.Some? ==>
            && row.value.summary.firstSeen == OccurrenceAt(h, FirstIn(h, id), id).observedAt
            && row.value.summary.lastSeen == OccurrenceAt(h, LastIn(h, id), id).observedAt
            && row.value.summary.count == CountIn(h, id)
            && (row.value.active <==> LastIn(h, id) == |h| - 1)
            && (row.value.recurring <==> CountIn(h, id) >= 2)
            && row.value.summary.state ==
                 if LastIn(h, id) == |h| - 1 then Active
                 else if ProvedAfter(h, LastIn(h, id), OccurrenceAt(h, LastIn(h, id), id).source, text.casefold)
                 then Resolved
                 else ResolutionUncertain)
  {
    HoldsParts(t, a, text);
    assert Derived(t, a, system, text);
    var h := HistoryIn(a, system, text);
    HistoryIsWellFormed(a, system, text);
    hide HistoryIn, Facts, Sound, ReportFacts, WellFormedReport, EventsShow, Holds;
    FindingsAreIndependent(h, text.casefold, id);
    LifecycleClosedForm(h, id, text.casefold);
    hide StatesAfter, EventsAfter, Track, TrackEvents, LastIn, FirstIn, CountIn, ProvedAfter, Find, OfFinding;
  }
}
