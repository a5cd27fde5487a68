/** What each call does to the stored rows, field by field, and what that makes of whole runs. */
module DecisionRows {
  import opened Common
  import Orders
  import opened DecisionModel
  import B = BaselineModel

  // ----- decisions

  ghost predicate HasActive(ds: seq<Decision>, system: string, id: string) {
    exists d :: d in ds && d.system == system && d.id == id && d.status == DecisionActive
  }

  ghost predicate HasId(ds: seq<Decision>, id: string) {
    exists d :: d in ds && d.id == id
  }

  /** One row is revoked; every other row, and every other field, is as before. */
  ghost predicate RowRevoked(ds: seq<Decision>, ds': seq<Decision>, system: string, id: string) {
    && |ds'| == |ds|
    && forall i :: 0 <= i < |ds| ==>
         ds'[i] == if ds[i].system == system && ds[i].id == id then ds[i].(status := DecisionRevoked) else ds[i]
  }

  /** One row is added; the row it supersedes, if any, is marked, and nothing else changes. */
  ghost predicate RowAdded(ds: seq<Decision>, ds': seq<Decision>, row: Decision) {
    && |ds'| == |ds| + 1 && ds'[|ds|] == row
    && forall i :: 0 <= i < |ds| ==>
         ds'[i] == if ds[i].system == row.system && row.supersedes == Some(ds[i].id)
                   then ds[i].(status := DecisionSuperseded) else ds[i]
  }

  /** What a creation must meet: an end after its start, a fresh id, and an active decision to supersede. */
  ghost predicate Creatable(ds: seq<Decision>, row: Decision) {
    && (row.expiresAt.Some? ==> row.effectiveAt < row.expiresAt.value)
    && (row.supersedes.Some? ==> HasActive(ds, row.system, row.supersedes.value))
    && !HasId(ds, row.id)
  }

  lemma ActiveIs(ds: seq<Decision>, system: string, id: string)
    requires Chained(ds)
    ensures ActiveDecision(ds, system, id) <==> HasActive(ds, system, id)
  {
    FindIs(ds, system, id);
    if ActiveDecision(ds, system, id) {
      var k := FoundAt(ds, system, id);
      assert ds[k] in ds;
    }
    if d :| d in ds && d.system == system && d.id == id && d.status == DecisionActive {
      var k := FoundAt(ds, system, id);
      var i :| 0 <= i < |ds| && ds[i] == d;
      assert i == k by { IdsDiffer(ds); }
    }
  }

  lemma IdsDiffer(ds: seq<Decision>)
    requires Chained(ds)
    ensures forall i, j :: 0 <= i < j < |ds| ==> ds[i].id != ds[j].id
  {
    hide Supersedes;
  }

  lemma {:induction false} FindIs(ds: seq<Decision>, system: string, id: string)
    ensures FindDecision(ds, system, id).Some? <==> exists d :: d in ds && d.system == system && d.id == id
  {
    if ds != [] {
      FindIs(ds[1..], system, id);
      assert ds == [ds[0]] + ds[1..];
    }
  }

  lemma RevocationIs(ds: seq<Decision>, system: string, id: string)
    requires Chained(ds)
    ensures var ds' := DecisionStep(ds, RevokeDecision(system, id));
      if HasActive(ds, system, id) then RowRevoked(ds, ds', system, id) else ds' == ds
  {
    ActiveIs(ds, system, id);
    WithStatusAt(ds, system, id, DecisionRevoked);
    hide WithStatus, ActiveDecision, HasActive, Chained;
  }

  lemma CreationIs(ds: seq<Decision>, row: Decision)
    requires Chained(ds) && row.status == DecisionActive
    ensures var call := CreateDecision(row.id, row.system, row.content, row.effectiveAt, row.expiresAt, row.supersedes);
      && (DecisionAllowed(ds, call) <==> Creatable(ds, row))
      && if Creatable(ds, row) then RowAdded(ds, DecisionStep(ds, call), row) else DecisionStep(ds, call) == ds
  {
    if row.supersedes.Some? {
      ActiveIs(ds, row.system, row.supersedes.value);
      WithStatusAt(ds, row.system, row.supersedes.value, DecisionSuperseded);
    }
    hide WithStatus, ActiveDecision, HasActive, Chained;
  }

  // ----- runs of decisions

  /** Call k of a run is a revocation of this decision, and it is accepted. */
  ghost predicate RevokesAt(calls: seq<DecisionCall>, k: nat, system: string, id: string) {
    && k < |calls| && calls[k] == RevokeDecision(system, id)
    && HasActive(DecisionRun([], calls[..k]), system, id)
  }

  ghost predicate RevokedInRun(calls: seq<DecisionCall>, system: string, id: string) {
    exists k :: 0 <= k < |calls| && RevokesAt(calls, k, system, id)
  }

  lemma RunGrows(calls: seq<DecisionCall>)
    requires calls != []
    ensures DecisionRun([], calls) == DecisionStep(DecisionRun([], calls[..|calls| - 1]), calls[|calls| - 1])
    ensures Chained(DecisionRun([], calls[..|calls| - 1]))
  {
    EveryRunIsChained(calls[..|calls| - 1]);
  }

  lemma RevokedSoFar(calls: seq<DecisionCall>, system: string, id: string)
    requires calls != []
    ensures RevokedInRun(calls, system, id)
      <==> RevokedInRun(calls[..|calls| - 1], system, id) || RevokesAt(calls, |calls| - 1, system, id)
  {
    var init := calls[..|calls| - 1];
    forall k | 0 <= k < |init| ensures RevokesAt(calls, k, system, id) <==> RevokesAt(init, k, system, id) {
      assert init[..k] == calls[..k];
    }
    hide RevokesAt;
  }

  /** Over every run a decision is revoked exactly if some accepted revocation named it. */
  lemma {:induction false} RevokedExactlyWhen(calls: seq<DecisionCall>, i: nat)
    requires i < |DecisionRun([], calls)|
    ensures var d := DecisionRun([], calls)[i];
      d.status == DecisionRevoked <==> RevokedInRun(calls, d.system, d.id)
  {
    RunGrows(calls);
    var init, call := calls[..|calls| - 1], calls[|calls| - 1];
    var ds, ds' := DecisionRun([], init), DecisionRun([], calls);
    var d := ds'[i];
    RevokedSoFar(calls, d.system, d.id);
    StepKeepsHistory(ds, call);
    LastRevokes(calls, d.system, d.id);
    match call
    case RevokeDecision(system, id) =>
      RevocationIs(ds, system, id);
      hide DecisionRun, DecisionStep, Chained, RevokesAt, RevokedInRun;
      RevokedExactlyWhen(init, i);
    case CreateDecision(id, system, content, effectiveAt, expiresAt, supersedes) =>
      CreationIs(ds, Decision(id, system, content, effectiveAt, expiresAt, DecisionActive, supersedes));
      hide DecisionRun, DecisionStep, Chained, RevokesAt, RevokedInRun, HasActive;
      var row := Decision(id, system, content, effectiveAt, expiresAt, DecisionActive, supersedes);
      if i < |ds| {
        RevokedExactlyWhen(init, i);
        if Creatable(ds, row) && ds[i].system == system && supersedes == Some(ds[i].id) { MarkedWasActive(ds, row, i); }
      } else if RevokedInRun(init, d.system, d.id) {
        NewWasNotRevoked(init, d.system, d.id);
      }
  }

  lemma LastRevokes(calls: seq<DecisionCall>, system: string, id: string)
    requires calls != []
    ensures RevokesAt(calls, |calls| - 1, system, id) <==>
      calls[|calls| - 1] == RevokeDecision(system, id)
      && HasActive(DecisionRun([], calls[..|calls| - 1]), system, id)
  {
  }

  lemma MarkedWasActive(ds: seq<Decision>, row: Decision, i: nat)
    requires Chained(ds) && Creatable(ds, row) && i < |ds|
    requires ds[i].system == row.system && row.supersedes == Some(ds[i].id)
    ensures ds[i].status == DecisionActive
  {
    IdsDiffer(ds);
    hide Chained;
    var d :| d in ds && d.system == row.system && d.id == row.supersedes.value && d.status == DecisionActive;
    var j :| 0 <= j < |ds| && ds[j] == d;
  }

  /** Only decisions that exist are ever revoked. */
  lemma {:induction false} NewWasNotRevoked(calls: seq<DecisionCall>, system: string, id: string)
    requires RevokedInRun(calls, system, id)
    ensures HasId(DecisionRun([], calls), id)
  {
    RunGrows(calls);
    RevokedSoFar(calls, system, id);
    LastRevokes(calls, system, id);
    var init := calls[..|calls| - 1];
    var ds := DecisionRun([], init);
    StepKeepsHistory(ds, calls[|calls| - 1]);
    hide DecisionRun, DecisionStep, Chained, RevokesAt, RevokedInRun;
    if RevokedInRun(init, system, id) { NewWasNotRevoked(init, system, id); }
    var d :| d in ds && d.id == id;
    var i :| 0 <= i < |ds| && ds[i] == d;
    assert DecisionRun([], calls)[i] in DecisionRun([], calls);
  }

  /** A revoked decision stays so: revoking it again or superseding it changes nothing. */
  lemma RevokedIsFinal(calls: seq<DecisionCall>, i: nat, call: DecisionCall)
    requires i < |DecisionRun([], calls)| && DecisionRun([], calls)[i].status == DecisionRevoked
    requires var d := DecisionRun([], calls)[i];
      call == RevokeDecision(d.system, d.id)
      || (call.CreateDecision? && call.system == d.system && call.supersedes == Some(d.id))
    ensures DecisionRun([], calls + [call]) == DecisionRun([], calls)
  {
    EveryRunIsChained(calls);
    var ds := DecisionRun([], calls);
    assert (calls + [call])[..|calls|] == calls;
    IdsDiffer(ds);
    forall d | d in ds && d.system == ds[i].system && d.id == ds[i].id ensures d.status != DecisionActive {
      var j :| 0 <= j < |ds| && ds[j] == d;
      assert i == j;
    }
    match call
    case RevokeDecision(system, id) => RevocationIs(ds, system, id);
    case CreateDecision(id, system, content, effectiveAt, expiresAt, supersedes) =>
      CreationIs(ds, Decision(id, system, content, effectiveAt, expiresAt, DecisionActive, supersedes));
  }

  // ----- baselines

  ghost predicate HasDraft(bs: seq<B.Baseline>, system: string, id: string) {
    exists b :: b in bs && b.system == system && b.id == id && b.state == B.Draft
  }

  /** The draft is approved, the approved row of its system and type is superseded, the rest is as before. */
  ghost predicate RowApproved(bs: seq<B.Baseline>, bs': seq<B.Baseline>, system: string, id: string, approver: string,
                              at: int)
  {
    && |bs'| == |bs|
    && exists k :: 0 <= k < |bs| && bs[k].system == system && bs[k].id == id
         && forall i :: 0 <= i < |bs| ==>
              bs'[i] == if i == k then bs[i].(state := B.Approved, approval := Some((approver, at)))
                        else if bs[i].system == system && bs[i].kind == bs[k].kind && bs[i].state == B.Approved
                        then bs[i].(state := B.Superseded)
                        else bs[i]
  }

  ghost predicate HasApproved(bs: seq<B.Baseline>, system: string, kind: B.BaselineKind, id: string) {
    exists b :: b in bs && b.system == system && b.id == id && b.state == B.Approved && b.kind == kind
  }

  /** What a draft must meet: entries with keys of their own, a fresh id, and an approved baseline to build on. */
  ghost predicate Draftable(bs: seq<B.Baseline>, id: string, system: string, kind: B.BaselineKind,
                            entries: seq<(string, string)>, previous: Option<string>)
  {
    && entries != []
    && (forall i, j :: 0 <= i < j < |entries| ==> entries[i].0 != entries[j].0)
    && (forall b :: b in bs ==> b.id != id)
    && (previous.Some? ==> HasApproved(bs, system, kind, previous.value))
  }

  /** The version after the last of the system and type, starting at 1. */
  ghost predicate NextVersion(bs: seq<B.Baseline>, row: B.Baseline) {
    && (forall b :: b in bs && b.system == row.system && b.kind == row.kind ==> b.version < row.version)
    && (row.version == 1
        || exists b :: b in bs && b.system == row.system && b.kind == row.kind && b.version == row.version - 1)
  }

  lemma BaselineIds(bs: seq<B.Baseline>)
    requires B.Versioned(bs)
    ensures forall i, j :: 0 <= i < j < |bs| ==> bs[i].id != bs[j].id
  {
    hide B.Numbered, B.OneApproved, B.Linked, B.Signed;
  }

  lemma {:induction false} FindBaselineIs(bs: seq<B.Baseline>, system: string, id: string)
    ensures B.FindBaseline(bs, system, id).Some? <==> exists b :: b in bs && b.system == system && b.id == id
  {
    if bs != [] {
      FindBaselineIs(bs[1..], system, id);
      assert bs == [bs[0]] + bs[1..];
    }
  }

  lemma FoundIs(bs: seq<B.Baseline>, b: B.Baseline)
    requires B.Versioned(bs) && b in bs
    ensures B.FindBaseline(bs, b.system, b.id) == Some(b)
  {
    BaselineIds(bs);
    FindBaselineIs(bs, b.system, b.id);
    var k := B.FoundBaselineAt(bs, b.system, b.id);
    hide B.FindBaseline, B.Versioned;
    var i :| 0 <= i < |bs| && bs[i] == b;
    assert i == k;
  }

  lemma FoundInTable(bs: seq<B.Baseline>, system: string, id: string)
    requires B.FindBaseline(bs, system, id).Some?
    ensures var b := B.FindBaseline(bs, system, id).value; b in bs && b.system == system && b.id == id
  {
    var k := B.FoundBaselineAt(bs, system, id);
    hide B.FindBaseline;
  }

  /** An approval, row by row. */
  lemma ApprovalIs(bs: seq<B.Baseline>, system: string, id: string, approver: string, at: int)
    requires B.Versioned(bs)
    ensures var call := B.Approve(system, id, approver, at);
      && (B.BaselineAllowed(bs, call) <==> HasDraft(bs, system, id))
      && if HasDraft(bs, system, id) then RowApproved(bs, B.BaselineStep(bs, call), system, id, approver, at)
         else B.BaselineStep(bs, call) == bs
  {
    hide B.Versioned, B.FindBaseline, B.ApprovedRows, RowApproved;
    DraftIsFound(bs, system, id);
    if HasDraft(bs, system, id) { DraftRowApproved(bs, system, id, approver, at); }
  }

  lemma DraftIsFound(bs: seq<B.Baseline>, system: string, id: string)
    requires B.Versioned(bs)
    ensures HasDraft(bs, system, id)
      <==> B.FindBaseline(bs, system, id).Some? && B.FindBaseline(bs, system, id).value.state == B.Draft
  {
    if b :| b in bs && b.system == system && b.id == id && b.state == B.Draft { FoundIs(bs, b); }
    if B.FindBaseline(bs, system, id).Some? { FoundInTable(bs, system, id); }
    hide B.Versioned, B.FindBaseline;
  }

  lemma DraftRowApproved(bs: seq<B.Baseline>, system: string, id: string, approver: string, at: int)
    requires B.Versioned(bs) && HasDraft(bs, system, id) && B.FindBaseline(bs, system, id).Some?
    ensures var kind := B.FindBaseline(bs, system, id).value.kind;
      RowApproved(bs, B.ApprovedRows(bs, system, kind, id, approver, at), system, id, approver, at)
  {
    FoundInTable(bs, system, id);
    var k := B.FoundBaselineAt(bs, system, id);
    BaselineIds(bs);
    B.ApprovedRowsAt(bs, system, bs[k].kind, id, approver, at);
    hide B.FindBaseline, B.ApprovedRows, B.Versioned;
  }

  lemma {:induction false} MaxIs(bs: seq<B.Baseline>, system: string, kind: B.BaselineKind)
    ensures forall b :: b in bs && b.system == system && b.kind == kind ==> b.version <= B.MaxVersion(bs, system, kind)
    ensures B.MaxVersion(bs, system, kind) == 0
      || exists b :: b in bs && b.system == system && b.kind == kind && b.version == B.MaxVersion(bs, system, kind)
  {
    if bs != [] {
      assert bs == bs[..|bs| - 1] + [bs[|bs| - 1]];
      MaxIs(bs[..|bs| - 1], system, kind);
    }
  }

  lemma {:induction false} UniqueIs(entries: seq<(string, string)>)
    ensures B.UniqueKeys(entries) <==> forall i, j :: 0 <= i < j < |entries| ==> entries[i].0 != entries[j].0
  {
    var keys := seq(|entries|, i requires 0 <= i < |entries| => entries[i].0);
    Orders.DistinctIffCounted(keys);
    assert Elems(keys) == set e | e in entries :: e.0 by {
      forall k | k in keys ensures exists e :: e in entries && e.0 == k {
        var i :| 0 <= i < |keys| && keys[i] == k;
        assert entries[i] in entries;
      }
      forall e | e in entries ensures e.0 in keys {
        var i :| 0 <= i < |entries| && entries[i] == e;
        assert keys[i] == e.0;
      }
    }
    if Distinct(keys) {
      forall i, j | 0 <= i < j < |entries| ensures entries[i].0 != entries[j].0 { assert keys[i] != keys[j]; }
    }
  }

  lemma PreviousIs(bs: seq<B.Baseline>, system: string, kind: B.BaselineKind, id: string)
    requires B.Versioned(bs)
    ensures var found := B.FindBaseline(bs, system, id);
      HasApproved(bs, system, kind, id) <==> found.Some? && found.value.state == B.Approved && found.value.kind == kind
  {
    var found := B.FindBaseline(bs, system, id);
    if found.Some? { FoundInTable(bs, system, id); }
    if b :| b in bs && b.system == system && b.id == id && b.state == B.Approved && b.kind == kind { FoundIs(bs, b); }
    hide B.Versioned, B.FindBaseline;
  }

  lemma VersionFollows(bs: seq<B.Baseline>, row: B.Baseline)
    requires row.version == B.MaxVersion(bs, row.system, row.kind) + 1
    ensures NextVersion(bs, row)
  {
    MaxIs(bs, row.system, row.kind);
    hide B.MaxVersion;
  }

  lemma DraftStepIs(bs: seq<B.Baseline>, id: string, system: string, kind: B.BaselineKind,
                    entries: seq<(string, string)>, previous: Option<string>)
    ensures var call := B.CreateDraft(id, system, kind, entries, previous);
      B.BaselineStep(bs, call) ==
      if B.BaselineAllowed(bs, call)
      then bs + [B.Baseline(id, system, kind, B.MaxVersion(bs, system, kind) + 1, B.Draft, entries, None, previous)]
      else bs
  {
    hide B.BaselineAllowed, B.MaxVersion;
  }

  lemma AllowedIsDraftable(bs: seq<B.Baseline>, id: string, system: string, kind: B.BaselineKind,
                           entries: seq<(string, string)>, previous: Option<string>)
    requires B.Versioned(bs)
    ensures B.BaselineAllowed(bs, B.CreateDraft(id, system, kind, entries, previous))
      <==> Draftable(bs, id, system, kind, entries, previous)
  {
    UniqueIs(entries);
    if previous.Some? { PreviousIs(bs, system, kind, previous.value); }
    assert B.BaselineIdTaken(bs, id) <==> exists b :: b in bs && b.id == id;
    hide B.Versioned, B.FindBaseline, B.UniqueKeys, B.BaselineIdTaken, HasApproved;
  }

  /** The row added and nothing else touched, or the table as it was. */
  ghost predicate RowDrafted(bs: seq<B.Baseline>, bs': seq<B.Baseline>, id: string, system: string,
                             kind: B.BaselineKind, entries: seq<(string, string)>, previous: Option<string>)
  {
    if Draftable(bs, id, system, kind, entries, previous) then
      exists row :: bs' == bs + [row] && NextVersion(bs, row)
        && row == B.Baseline(id, system, kind, row.version, B.Draft, entries, None, previous)
    else bs' == bs
  }

  /** A draft, row by row. */
  lemma DraftIs(bs: seq<B.Baseline>, id: string, system: string, kind: B.BaselineKind, entries: seq<(string, string)>,
                previous: Option<string>)
    requires B.Versioned(bs)
    ensures var call := B.CreateDraft(id, system, kind, entries, previous);
      && (B.BaselineAllowed(bs, call) <==> Draftable(bs, id, system, kind, entries, previous))
      && RowDrafted(bs, B.BaselineStep(bs, call), id, system, kind, entries, previous)
  {
    AllowedIsDraftable(bs, id, system, kind, entries, previous);
    DraftStepIs(bs, id, system, kind, entries, previous);
    var row := B.Baseline(id, system, kind, B.MaxVersion(bs, system, kind) + 1, B.Draft, entries, None, previous);
    VersionFollows(bs, row);
    hide B.Versioned, B.BaselineAllowed, B.BaselineStep, B.MaxVersion, Draftable, NextVersion;
  }
}
