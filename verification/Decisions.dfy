/** Histories of user decisions and of baselines: calls as steps over the stored rows. */
module DecisionModel {
  import opened Common

  datatype DecisionStatus = DecisionActive | DecisionSuperseded | DecisionRevoked

  /** The immutable meaning of a decision is one opaque value; only the status ever changes. */
  datatype Decision = Decision(
    id: string, system: string, content: string, effectiveAt: int, expiresAt: Option<int>, status: DecisionStatus,
    supersedes: Option<string>)

  datatype DecisionCall =
    | CreateDecision(id: string, system: string, content: string, effectiveAt: int, expiresAt: Option<int>,
                     supersedes: Option<string>)
    | RevokeDecision(system: string, id: string)

  /** The row of a same-system id. */
  function FindDecision(ds: seq<Decision>, system: string, id: string): Option<Decision> {
    if ds == [] then None
    else if ds[0].system == system && ds[0].id == id then Some(ds[0])
    else FindDecision(ds[1..], system, id)
  }

  predicate DecisionIdTaken(ds: seq<Decision>, id: string) {
    exists d :: d in ds && d.id == id
  }

  /** Sets the status of the row with this system and id. */
  function WithStatus(ds: seq<Decision>, system: string, id: string, status: DecisionStatus): seq<Decision> {
    if ds == [] then []
    else
      [if ds[0].system == system && ds[0].id == id then ds[0].(status := status) else ds[0]]
      + WithStatus(ds[1..], system, id, status)
  }

  predicate ActiveDecision(ds: seq<Decision>, system: string, id: string) {
    var found := FindDecision(ds, system, id);
    found.Some? && found.value.status == DecisionActive
  }

  predicate DecisionAllowed(ds: seq<Decision>, call: DecisionCall) {
    match call
    case CreateDecision(id, system, _, effectiveAt, expiresAt, supersedes) =>
      && (expiresAt.Some? ==> effectiveAt < expiresAt.value)
      && (supersedes.Some? ==> ActiveDecision(ds, system, supersedes.value))
      && !DecisionIdTaken(ds, id)
    case RevokeDecision(system, id) => ActiveDecision(ds, system, id)
  }

  /** A refused call leaves the table as it was. */
  function DecisionStep(ds: seq<Decision>, call: DecisionCall): seq<Decision> {
    if !DecisionAllowed(ds, call) then ds
    else
      match call
      case CreateDecision(id, system, content, effectiveAt, expiresAt, supersedes) =>
        (if supersedes.Some? then WithStatus(ds, system, supersedes.value, DecisionSuperseded) else ds)
        + [Decision(id, system, content, effectiveAt, expiresAt, DecisionActive, supersedes)]
      case RevokeDecision(system, id) => WithStatus(ds, system, id, DecisionRevoked)
  }

  function DecisionRun(ds: seq<Decision>, calls: seq<DecisionCall>): seq<Decision> {
    if calls == [] then ds else DecisionStep(DecisionRun(ds, calls[..|calls| - 1]), calls[|calls| - 1])
  }

  // ----- the invariant

  ghost predicate Supersedes(ds: seq<Decision>, i: nat, j: nat) {
    i < |ds| && j < |ds| && ds[i].supersedes == Some(ds[j].id) && ds[i].system == ds[j].system
  }

  ghost predicate DecisionIdsDistinct(ds: seq<Decision>) {
    forall i, j :: 0 <= i < j < |ds| ==> ds[i].id != ds[j].id
  }

  /** Links lead to earlier rows of the system, never two to one row, and exactly the targets are superseded. */
  ghost predicate Chained(ds: seq<Decision>) {
    && DecisionIdsDistinct(ds)
    && (forall i: nat :: i < |ds| && ds[i].supersedes.Some? ==> exists j: nat :: j < i && Supersedes(ds, i, j))
    && (forall i: nat, k: nat, j: nat :: Supersedes(ds, i, j) && Supersedes(ds, k, j) ==> i == k)
    && (forall j: nat :: j < |ds| ==> (ds[j].status == DecisionSuperseded <==> exists i: nat :: Supersedes(ds, i, j)))
  }

  lemma {:induction false} WithStatusAt(ds: seq<Decision>, system: string, id: string, status: DecisionStatus)
    ensures |WithStatus(ds, system, id, status)| == |ds|
    ensures forall i :: 0 <= i < |ds| ==>
      WithStatus(ds, system, id, status)[i]
        == if ds[i].system == system && ds[i].id == id then ds[i].(status := status) else ds[i]
  {
    if ds != [] { WithStatusAt(ds[1..], system, id, status); }
  }

  lemma {:induction false} FoundAt(ds: seq<Decision>, system: string, id: string) returns (k: nat)
    requires FindDecision(ds, system, id).Some?
    ensures k < |ds| && ds[k] == FindDecision(ds, system, id).value && ds[k].system == system && ds[k].id == id
  {
    if ds[0].system == system && ds[0].id == id {
      k := 0;
    } else {
      k := FoundAt(ds[1..], system, id);
      k := k + 1;
    }
  }

  /** Two tables whose rows differ in status only have the same links. */
  ghost predicate SameMeaning(ds: seq<Decision>, ds': seq<Decision>) {
    |ds| == |ds'| && forall i :: 0 <= i < |ds| ==> ds'[i] == ds[i].(status := ds'[i].status)
  }

  lemma SameLinks(ds: seq<Decision>, ds': seq<Decision>, i: nat, j: nat)
    requires SameMeaning(ds, ds')
    ensures Supersedes(ds', i, j) <==> Supersedes(ds, i, j)
  {
  }

  /** Changing the status of one active row to another that is not SUPERSEDED keeps the chains. */
  lemma RevocationKeepsChains(ds: seq<Decision>, system: string, id: string)
    requires Chained(ds) && ActiveDecision(ds, system, id)
    ensures Chained(WithStatus(ds, system, id, DecisionRevoked))
  {
    var k := FoundAt(ds, system, id);
    WithStatusAt(ds, system, id, DecisionRevoked);
    var ds' := WithStatus(ds, system, id, DecisionRevoked);
    hide WithStatus, FindDecision;
    assert SameMeaning(ds, ds');
    forall i: nat, j: nat ensures Supersedes(ds', i, j) <==> Supersedes(ds, i, j) { SameLinks(ds, ds', i, j); }
    hide Supersedes, SameMeaning;
    forall j: nat | j < |ds| ensures ds'[j].status == DecisionSuperseded <==> ds[j].status == DecisionSuperseded {
      if j != k { assert ds[j].id != ds[k].id; }
    }
    forall i: nat | i < |ds'| && ds'[i].supersedes.Some? ensures exists j: nat :: j < i && Supersedes(ds', i, j) {
      var j: nat :| j < i && Supersedes(ds, i, j);
      assert Supersedes(ds', i, j);
    }
  }

  lemma CreationKeepsChains(ds: seq<Decision>, d: Decision)
    requires Chained(ds) && !DecisionIdTaken(ds, d.id) && d.status == DecisionActive
    requires d.supersedes.Some? ==> ActiveDecision(ds, d.system, d.supersedes.value)
    ensures Chained(
      (if d.supersedes.Some? then WithStatus(ds, d.system, d.supersedes.value, DecisionSuperseded) else ds) + [d])
  {
    if d.supersedes.None? {
      PlainCreation(ds, d);
    } else {
      var k := FoundAt(ds, d.system, d.supersedes.value);
      SupersedingCreation(ds, d, k);
    }
  }

  lemma PlainCreation(ds: seq<Decision>, d: Decision)
    requires Chained(ds) && !DecisionIdTaken(ds, d.id) && d.status == DecisionActive && d.supersedes.None?
    ensures Chained(ds + [d])
  {
    var ds' := ds + [d];
    LinksToTaken(ds, d.id);
    forall i: nat, j: nat ensures Supersedes(ds', i, j) <==> Supersedes(ds, i, j) {}
    NewIdKeepsDistinct(ds, d);
    hide Supersedes, DecisionIdTaken, DecisionIdsDistinct;
    forall i: nat | i < |ds'| && ds'[i].supersedes.Some? ensures exists j: nat :: j < i && Supersedes(ds', i, j) {
      var j: nat :| j < i && Supersedes(ds, i, j);
      assert Supersedes(ds', i, j);
    }
    assert !exists i: nat :: Supersedes(ds', i, |ds|) by {
      forall i: nat ensures !Supersedes(ds', i, |ds|) { OutOfRange(ds, i, |ds|); }
    }
  }

  lemma OutOfRange(ds: seq<Decision>, i: nat, j: nat)
    requires j >= |ds| || i >= |ds|
    ensures !Supersedes(ds, i, j)
  {
  }

  lemma NewIdKeepsDistinct(ds: seq<Decision>, d: Decision)
    requires DecisionIdsDistinct(ds) && !DecisionIdTaken(ds, d.id)
    ensures DecisionIdsDistinct(ds + [d])
  {
    forall i | 0 <= i < |ds| ensures ds[i].id != d.id { assert ds[i] in ds; }
  }

  /** No row links to an id that no row has. */
  lemma LinksToTaken(ds: seq<Decision>, id: string)
    requires Chained(ds) && !DecisionIdTaken(ds, id)
    ensures forall i :: 0 <= i < |ds| ==> ds[i].supersedes != Some(id) && ds[i].id != id
  {
    forall i | 0 <= i < |ds| ensures ds[i].supersedes != Some(id) && ds[i].id != id {
      assert ds[i] in ds;
      if ds[i].supersedes.Some? {
        var j: nat :| j < i && Supersedes(ds, i, j);
        assert ds[j] in ds;
      }
    }
  }

  /** The old links and one new one, from the last row to row k. */
  ghost predicate OneLinkMore(ds: seq<Decision>, ds': seq<Decision>, k: nat) {
    forall i: nat, j: nat :: Supersedes(ds', i, j) <==> Supersedes(ds, i, j) || (i == |ds| && j == k)
  }

  lemma ChainedWithOneLinkMore(ds: seq<Decision>, ds': seq<Decision>, k: nat)
    requires Chained(ds) && k < |ds| && ds[k].status == DecisionActive && |ds'| == |ds| + 1
    requires DecisionIdsDistinct(ds') && OneLinkMore(ds, ds', k)
    requires forall i :: 0 <= i < |ds| ==> ds'[i].supersedes == ds[i].supersedes
    requires forall i :: 0 <= i < |ds| ==> ds'[i].status == if i == k then DecisionSuperseded else ds[i].status
    requires ds'[|ds|].status == DecisionActive
    ensures Chained(ds')
  {
    forall i: nat ensures !Supersedes(ds, i, |ds|) && !Supersedes(ds, |ds|, i) {
      OutOfRange(ds, i, |ds|);
      OutOfRange(ds, |ds|, i);
    }
    hide Supersedes, DecisionIdsDistinct;
    assert forall i: nat :: !Supersedes(ds, i, k);
    assert Supersedes(ds', |ds|, k);
    forall i: nat | i < |ds'| && ds'[i].supersedes.Some? ensures exists j: nat :: j < i && Supersedes(ds', i, j) {
      if i < |ds| {
        var j: nat :| j < i && Supersedes(ds, i, j);
        assert Supersedes(ds', i, j);
      }
    }
    forall j: nat | j < |ds| && ds[j].status == DecisionSuperseded ensures exists i: nat :: Supersedes(ds', i, j) {
      var i: nat :| Supersedes(ds, i, j);
      assert Supersedes(ds', i, j);
    }
  }

  lemma SupersedingCreation(ds: seq<Decision>, d: Decision, k: nat)
    requires Chained(ds) && !DecisionIdTaken(ds, d.id) && d.status == DecisionActive
    requires k < |ds| && ds[k].status == DecisionActive && ds[k].system == d.system && d.supersedes == Some(ds[k].id)
    ensures Chained(WithStatus(ds, d.system, ds[k].id, DecisionSuperseded) + [d])
  {
    assert DecisionIdsDistinct(ds);
    var marked := WithStatus(ds, d.system, ds[k].id, DecisionSuperseded);
    WithStatusAt(ds, d.system, ds[k].id, DecisionSuperseded);
    LinksToTaken(ds, d.id);
    hide WithStatus, Chained, Supersedes;
    assert SameMeaning(ds, marked);
    forall j: nat | j < |ds| ensures marked[j].status == if j == k then DecisionSuperseded else ds[j].status {
      if j != k { assert ds[j].id != ds[k].id; }
    }
    forall i: nat, j: nat
      ensures Supersedes(marked + [d], i, j) <==> Supersedes(ds, i, j) || (i == |ds| && j == k)
    {
      NewLinks(ds, marked, d, k, i, j);
    }
    assert OneLinkMore(ds, marked + [d], k);
    ChainedWithOneLinkMore(ds, marked + [d], k);
  }

  lemma NewLinks(ds: seq<Decision>, marked: seq<Decision>, d: Decision, k: nat, i: nat, j: nat)
    requires SameMeaning(ds, marked) && DecisionIdsDistinct(ds) && k < |ds|
    requires forall i :: 0 <= i < |ds| ==> ds[i].supersedes != Some(d.id) && ds[i].id != d.id
    requires d.supersedes == Some(ds[k].id) && ds[k].system == d.system
    ensures Supersedes(marked + [d], i, j) <==> Supersedes(ds, i, j) || (i == |ds| && j == k)
  {
    if i == |ds| && j < |ds| && j != k {
      assert ds[j].id != ds[k].id;
    }
  }

  lemma StepKeepsChains(ds: seq<Decision>, call: DecisionCall)
    requires Chained(ds)
    ensures Chained(DecisionStep(ds, call))
  {
    if DecisionAllowed(ds, call) {
      match call
      case CreateDecision(id, system, content, effectiveAt, expiresAt, supersedes) =>
        CreationKeepsChains(ds, Decision(id, system, content, effectiveAt, expiresAt, DecisionActive, supersedes));
      case RevokeDecision(system, id) =>
        RevocationKeepsChains(ds, system, id);
    }
    hide Chained, WithStatus, FindDecision, DecisionIdTaken;
  }

  /** Over every run of calls, superseded decisions are exactly those with a successor, and have only one. */
  lemma {:induction false} EveryRunIsChained(calls: seq<DecisionCall>)
    ensures Chained(DecisionRun([], calls))
  {
    hide DecisionStep, Supersedes;
    if calls == [] {
      EmptyIsChained();
    } else {
      EveryRunIsChained(calls[..|calls| - 1]);
      StepKeepsChains(DecisionRun([], calls[..|calls| - 1]), calls[|calls| - 1]);
    }
  }

  lemma EmptyIsChained()
    ensures Chained([])
  {
  }

  /** Rows are only ever added, their meaning never changes, and a status once left is never regained. */
  lemma StepKeepsHistory(ds: seq<Decision>, call: DecisionCall)
    requires Chained(ds)
    ensures |ds| <= |DecisionStep(ds, call)| <= |ds| + 1
    ensures forall i :: 0 <= i < |ds| ==>
      var d := DecisionStep(ds, call)[i];
      d == ds[i].(status := d.status) && (ds[i].status != DecisionActive ==> d == ds[i])
  {
    if DecisionAllowed(ds, call) {
      match call
      case CreateDecision(id, system, content, effectiveAt, expiresAt, supersedes) =>
        if supersedes.Some? {
          WithStatusAt(ds, system, supersedes.value, DecisionSuperseded);
          OnlyActiveChanges(ds, system, supersedes.value);
        }
      case RevokeDecision(system, id) =>
        WithStatusAt(ds, system, id, DecisionRevoked);
        OnlyActiveChanges(ds, system, id);
    }
    hide WithStatus, FindDecision, DecisionIdTaken, Chained;
  }

  lemma OnlyActiveChanges(ds: seq<Decision>, system: string, id: string)
    requires Chained(ds) && ActiveDecision(ds, system, id)
    ensures forall i :: 0 <= i < |ds| && ds[i].system == system && ds[i].id == id ==> ds[i].status == DecisionActive
  {
    var k := FoundAt(ds, system, id);
    hide Supersedes, FindDecision;
  }

  // ----- chains

  /** The position a row's link leads to, or -1. */
  ghost function Previous(ds: seq<Decision>, i: nat): (j: int)
    requires Chained(ds) && i < |ds|
    ensures -1 <= j < i
    ensures j >= 0 ==> Supersedes(ds, i, j)
    ensures j < 0 <==> ds[i].supersedes.None?
  {
    if ds[i].supersedes.None? then -1
    else
      var j: nat :| j < i && Supersedes(ds, i, j);
      j
  }

  /** A row and everything it supersedes, directly or not, newest first. */
  ghost function Chain(ds: seq<Decision>, i: nat): (c: seq<nat>)
    requires Chained(ds) && i < |ds|
    ensures c != [] && c[0] == i && forall k :: 0 <= k < |c| ==> c[k] <= i && c[k] < |ds|
    decreases i
  {
    var j := Previous(ds, i);
    if j < 0 then [i] else [i] + Chain(ds, j)
  }

  /** Chains run strictly backwards, so none is cyclic; below its head every member is superseded. */
  lemma {:induction false} ChainDescends(ds: seq<Decision>, i: nat)
    requires Chained(ds) && i < |ds|
    ensures forall k, l :: 0 <= k < l < |Chain(ds, i)| ==> Chain(ds, i)[l] < Chain(ds, i)[k]
    ensures forall k :: 0 < k < |Chain(ds, i)| ==> ds[Chain(ds, i)[k]].status == DecisionSuperseded
    ensures forall k :: 0 <= k < |Chain(ds, i)| ==> ds[Chain(ds, i)[k]].system == ds[i].system
    decreases i
  {
    var j := Previous(ds, i);
    if j >= 0 {
      ChainDescends(ds, j);
      assert ds[j].status == DecisionSuperseded;
      hide Chained;
    }
  }

  /** The current decision a row was superseded by, directly or not; itself if not superseded. */
  lemma {:induction false} HeadOf(ds: seq<Decision>, j: nat) returns (i: nat)
    requires Chained(ds) && j < |ds|
    ensures i < |ds| && ds[i].status != DecisionSuperseded && j in Chain(ds, i)
    decreases |ds| - j
  {
    if ds[j].status == DecisionSuperseded {
      var k: nat :| Supersedes(ds, k, j);
      LinkGoesBack(ds, k, j);
      i := HeadOf(ds, k);
      ChainGoesOn(ds, i, k, j);
    } else {
      i := j;
    }
  }

  lemma LinkGoesBack(ds: seq<Decision>, k: nat, j: nat)
    requires Chained(ds) && Supersedes(ds, k, j)
    ensures j < k && Previous(ds, k) == j
  {
    var p := Previous(ds, k);
    assert ds[p].id == ds[j].id;
  }

  lemma {:induction false} ChainGoesOn(ds: seq<Decision>, i: nat, k: nat, j: nat)
    requires Chained(ds) && i < |ds| && k in Chain(ds, i) && Supersedes(ds, k, j)
    ensures j in Chain(ds, i)
    decreases i
  {
    LinkGoesBack(ds, k, j);
    if k == i {
      assert Chain(ds, j)[0] == j;
    } else {
      ChainGoesOn(ds, Previous(ds, i), k, j);
    }
  }

  /** Different current decisions never share a predecessor: the chains are disjoint. */
  lemma {:induction false} ChainsAreDisjoint(ds: seq<Decision>, i: nat, k: nat, j: nat)
    requires Chained(ds) && i < |ds| && k < |ds|
    requires ds[i].status != DecisionSuperseded && ds[k].status != DecisionSuperseded
    requires j in Chain(ds, i) && j in Chain(ds, k)
    ensures i == k
    decreases |ds| - j
  {
    if j != i && j != k {
      var p := Successor(ds, i, j);
      var q := Successor(ds, k, j);
      assert p == q;
      ChainsAreDisjoint(ds, i, k, p);
    } else if j == i && j != k {
      var q := Successor(ds, k, j);
    } else if j == k && j != i {
      var p := Successor(ds, i, j);
    }
  }

  lemma {:induction false} Successor(ds: seq<Decision>, i: nat, j: nat) returns (p: nat)
    requires Chained(ds) && i < |ds| && j in Chain(ds, i) && j != i
    ensures Supersedes(ds, p, j) && j < p && p in Chain(ds, i)
    decreases i
  {
    var b := Previous(ds, i);
    if b == j {
      p := i;
      assert Chain(ds, i)[0] == i;
    } else {
      p := Successor(ds, b, j);
    }
  }
}

module BaselineModel {
  import opened Common

  datatype BaselineKind =
    ExpectedServices | ExpectedApplications | ExpectedFirewallState | ApprovedListeners | SystemPosture

  datatype BaselineState = Draft | Approved | Superseded

  datatype Baseline = Baseline(
    id: string, system: string, kind: BaselineKind, version: nat, state: BaselineState, entries: seq<(string, string)>,
    approval: Option<(string, int)>, previous: Option<string>)

  datatype BaselineCall =
    | CreateDraft(id: string, system: string, kind: BaselineKind, entries: seq<(string, string)>,
                  previous: Option<string>)
    | Approve(system: string, id: string, approver: string, at: int)

  predicate SameLine(b: Baseline, system: string, kind: BaselineKind) {
    b.system == system && b.kind == kind
  }

  function FindBaseline(bs: seq<Baseline>, system: string, id: string): Option<Baseline> {
    if bs == [] then None
    else if bs[0].system == system && bs[0].id == id then Some(bs[0])
    else FindBaseline(bs[1..], system, id)
  }

  predicate BaselineIdTaken(bs: seq<Baseline>, id: string) {
    exists b :: b in bs && b.id == id
  }

  /** The highest version of a line, 0 for none. */
  function MaxVersion(bs: seq<Baseline>, system: string, kind: BaselineKind): nat {
    if bs == [] then 0
    else
      var last, before := bs[|bs| - 1], MaxVersion(bs[..|bs| - 1], system, kind);
      if SameLine(last, system, kind) && last.version > before then last.version else before
  }

  predicate UniqueKeys(entries: seq<(string, string)>) {
    |set e | e in entries :: e.0| == |entries|
  }

  predicate BaselineAllowed(bs: seq<Baseline>, call: BaselineCall) {
    match call
    case CreateDraft(id, system, kind, entries, previous) =>
      && entries != [] && UniqueKeys(entries) && !BaselineIdTaken(bs, id)
      && (previous.Some? ==>
            var found := FindBaseline(bs, system, previous.value);
            found.Some? && found.value.state == Approved && found.value.kind == kind)
    case Approve(system, id, _, _) =>
      var found := FindBaseline(bs, system, id);
      found.Some? && found.value.state == Draft
  }

  /** One row under an approval: the draft is approved, the line's approved row is superseded. */
  function ApprovedRow(b: Baseline, system: string, kind: BaselineKind, id: string, approver: string,
                        at: int): Baseline
  {
    if b.system == system && b.id == id then b.(state := Approved, approval := Some((approver, at)))
    else if SameLine(b, system, kind) && b.state == Approved then b.(state := Superseded)
    else b
  }

  function ApprovedRows(bs: seq<Baseline>, system: string, kind: BaselineKind, id: string, approver: string,
                        at: int): seq<Baseline>
  {
    if bs == [] then []
    else [ApprovedRow(bs[0], system, kind, id, approver, at)] + ApprovedRows(bs[1..], system, kind, id, approver, at)
  }

  function BaselineStep(bs: seq<Baseline>, call: BaselineCall): seq<Baseline> {
    if !BaselineAllowed(bs, call) then bs
    else
      match call
      case CreateDraft(id, system, kind, entries, previous) =>
        bs + [Baseline(id, system, kind, MaxVersion(bs, system, kind) + 1, Draft, entries, None, previous)]
      case Approve(system, id, approver, at) =>
        ApprovedRows(bs, system, FindBaseline(bs, system, id).value.kind, id, approver, at)
  }

  function BaselineRun(bs: seq<Baseline>, calls: seq<BaselineCall>): seq<Baseline> {
    if calls == [] then bs else BaselineStep(BaselineRun(bs, calls[..|calls| - 1]), calls[|calls| - 1])
  }

  // ----- the invariant

  function CountLine(bs: seq<Baseline>, system: string, kind: BaselineKind): nat {
    if bs == [] then 0
    else CountLine(bs[..|bs| - 1], system, kind) + if SameLine(bs[|bs| - 1], system, kind) then 1 else 0
  }

  ghost predicate BaselineIdsDistinct(bs: seq<Baseline>) {
    forall i, j :: 0 <= i < j < |bs| ==> bs[i].id != bs[j].id
  }

  /** A row's version counts the rows of its line so far. */
  ghost predicate Numbered(bs: seq<Baseline>) {
    forall i :: 0 <= i < |bs| ==> bs[i].version == CountLine(bs[..i], bs[i].system, bs[i].kind) + 1
  }

  ghost predicate OneApproved(bs: seq<Baseline>) {
    forall i, j :: 0 <= i < j < |bs| && bs[i].state == Approved && bs[j].state == Approved ==>
      !SameLine(bs[i], bs[j].system, bs[j].kind)
  }

  ghost predicate LinksBack(bs: seq<Baseline>, i: nat, j: nat) {
    && i < |bs| && j < i && bs[i].previous == Some(bs[j].id)
    && SameLine(bs[i], bs[j].system, bs[j].kind) && bs[j].state != Draft && bs[j].version < bs[i].version
  }

  ghost predicate Linked(bs: seq<Baseline>) {
    forall i: nat :: i < |bs| && bs[i].previous.Some? ==> exists j: nat :: LinksBack(bs, i, j)
  }

  ghost predicate Signed(bs: seq<Baseline>) {
    forall i :: 0 <= i < |bs| ==> (bs[i].approval.Some? <==> bs[i].state != Draft)
  }

  ghost predicate Versioned(bs: seq<Baseline>) {
    BaselineIdsDistinct(bs) && Numbered(bs) && OneApproved(bs) && Linked(bs) && Signed(bs)
  }

  lemma {:induction false} NumberedPrefix(bs: seq<Baseline>)
    requires Numbered(bs) && bs != []
    ensures Numbered(bs[..|bs| - 1])
  {
    var init := bs[..|bs| - 1];
    forall i | 0 <= i < |init| ensures init[i].version == CountLine(init[..i], init[i].system, init[i].kind) + 1 {
      assert init[..i] == bs[..i];
    }
  }

  /** The highest version of a line is the number of its rows. */
  lemma {:induction false} MaxIsCount(bs: seq<Baseline>, system: string, kind: BaselineKind)
    requires Numbered(bs)
    ensures MaxVersion(bs, system, kind) == CountLine(bs, system, kind)
  {
    if bs != [] {
      NumberedPrefix(bs);
      MaxIsCount(bs[..|bs| - 1], system, kind);
    }
  }

  lemma {:induction false} CountMonotone(bs: seq<Baseline>, i: nat, j: nat, system: string, kind: BaselineKind)
    requires i <= j <= |bs|
    ensures CountLine(bs[..i], system, kind) <= CountLine(bs[..j], system, kind)
    decreases j - i
  {
    if i < j {
      CountMonotone(bs, i, j - 1, system, kind);
      assert bs[..j][..j - 1] == bs[..j - 1];
    }
  }

  lemma LaterIsHigher(bs: seq<Baseline>, i: nat, j: nat)
    requires Numbered(bs) && i < j < |bs| && SameLine(bs[i], bs[j].system, bs[j].kind)
    ensures bs[i].version < bs[j].version
  {
    CountMonotone(bs, i + 1, j, bs[j].system, bs[j].kind);
    assert bs[..i + 1][..i] == bs[..i];
  }

  lemma {:induction false} FoundBaselineAt(bs: seq<Baseline>, system: string, id: string) returns (k: nat)
    requires FindBaseline(bs, system, id).Some?
    ensures k < |bs| && bs[k] == FindBaseline(bs, system, id).value && bs[k].system == system && bs[k].id == id
  {
    if bs[0].system == system && bs[0].id == id {
      k := 0;
    } else {
      k := FoundBaselineAt(bs[1..], system, id);
      k := k + 1;
    }
  }

  lemma {:induction false} ApprovedRowsAt(bs: seq<Baseline>, system: string, kind: BaselineKind, id: string,
                                          approver: string, at: int)
    ensures |ApprovedRows(bs, system, kind, id, approver, at)| == |bs|
    ensures forall i :: 0 <= i < |bs| ==>
      ApprovedRows(bs, system, kind, id, approver, at)[i] == ApprovedRow(bs[i], system, kind, id, approver, at)
  {
    hide ApprovedRow;
    if bs != [] { ApprovedRowsAt(bs[1..], system, kind, id, approver, at); }
  }

  /** Tables whose rows differ in state and approval only. */
  ghost predicate SameContents(bs: seq<Baseline>, bs': seq<Baseline>) {
    |bs| == |bs'|
    && forall i :: 0 <= i < |bs| ==> bs'[i] == bs[i].(state := bs'[i].state, approval := bs'[i].approval)
  }

  lemma {:induction false} SameCount(bs: seq<Baseline>, bs': seq<Baseline>, system: string, kind: BaselineKind)
    requires SameContents(bs, bs')
    ensures CountLine(bs', system, kind) == CountLine(bs, system, kind)
  {
    if bs != [] { SameCount(bs[..|bs| - 1], bs'[..|bs| - 1], system, kind); }
  }

  lemma SameContentsKeeps(bs: seq<Baseline>, bs': seq<Baseline>)
    requires SameContents(bs, bs') && BaselineIdsDistinct(bs) && Numbered(bs) && Linked(bs)
    requires forall i :: 0 <= i < |bs| && bs[i].state != Draft ==> bs'[i].state != Draft
    ensures BaselineIdsDistinct(bs') && Numbered(bs') && Linked(bs')
  {
    forall i | 0 <= i < |bs'| ensures bs'[i].version == CountLine(bs'[..i], bs'[i].system, bs'[i].kind) + 1 {
      SameCount(bs[..i], bs'[..i], bs[i].system, bs[i].kind);
    }
    forall i: nat | i < |bs'| && bs'[i].previous.Some? ensures exists j: nat :: LinksBack(bs', i, j) {
      var j: nat :| LinksBack(bs, i, j);
      assert LinksBack(bs', i, j);
    }
  }

  /** Row k becomes approved, the line's approved row superseded, all else stays. */
  ghost predicate ApprovedAt(bs: seq<Baseline>, bs': seq<Baseline>, k: nat, approver: string, at: int)
    requires k < |bs|
  {
    && SameContents(bs, bs')
    && forall i :: 0 <= i < |bs| ==>
         && (i == k ==> bs'[i].state == Approved && bs'[i].approval == Some((approver, at)))
         && (i != k ==>
               bs'[i] == if SameLine(bs[i], bs[k].system, bs[k].kind) && bs[i].state == Approved
                         then bs[i].(state := Superseded) else bs[i])
  }

  lemma ApprovedRowMeans(bs: seq<Baseline>, k: nat, approver: string, at: int)
    requires BaselineIdsDistinct(bs) && k < |bs|
    ensures ApprovedAt(bs, ApprovedRows(bs, bs[k].system, bs[k].kind, bs[k].id, approver, at), k, approver, at)
  {
    ApprovedRowsAt(bs, bs[k].system, bs[k].kind, bs[k].id, approver, at);
    hide ApprovedRows;
    forall i | 0 <= i < |bs| && i != k ensures bs[i].id != bs[k].id {}
  }

  lemma OneApprovedStays(bs: seq<Baseline>, bs': seq<Baseline>, k: nat, approver: string, at: int)
    requires OneApproved(bs) && Signed(bs) && k < |bs| && ApprovedAt(bs, bs', k, approver, at)
    ensures OneApproved(bs') && Signed(bs')
  {
    forall i | 0 <= i < |bs| ensures bs'[i].approval.Some? <==> bs'[i].state != Draft {
      assert bs[i].approval.Some? <==> bs[i].state != Draft;
    }
    hide Signed;
    forall i, j | 0 <= i < j < |bs'| && bs'[i].state == Approved && bs'[j].state == Approved
      ensures !SameLine(bs'[i], bs'[j].system, bs'[j].kind)
    {
      if i != k && j != k {
        assert bs'[i] == bs[i] && bs'[j] == bs[j];
      }
    }
  }

  lemma ApprovalKeepsVersioned(bs: seq<Baseline>, k: nat, approver: string, at: int)
    requires Versioned(bs) && k < |bs| && bs[k].state == Draft
    ensures Versioned(ApprovedRows(bs, bs[k].system, bs[k].kind, bs[k].id, approver, at))
  {
    var bs' := ApprovedRows(bs, bs[k].system, bs[k].kind, bs[k].id, approver, at);
    ApprovedRowMeans(bs, k, approver, at);
    hide ApprovedRows, Numbered, Linked, BaselineIdsDistinct, OneApproved, Signed, SameContents;
    OneApprovedStays(bs, bs', k, approver, at);
    SameContentsKeeps(bs, bs');
  }

  lemma NumberedSnoc(bs: seq<Baseline>, b: Baseline)
    requires Numbered(bs) && b.version == MaxVersion(bs, b.system, b.kind) + 1
    ensures Numbered(bs + [b])
  {
    MaxIsCount(bs, b.system, b.kind);
    hide MaxVersion, CountLine;
    var bs' := bs + [b];
    forall i | 0 <= i < |bs'| ensures bs'[i].version == CountLine(bs'[..i], bs'[i].system, bs'[i].kind) + 1 {
      assert bs'[..i] == bs[..i];
      assert bs[..|bs|] == bs;
    }
  }

  lemma LinkedSnoc(bs: seq<Baseline>, b: Baseline)
    requires Linked(bs) && Numbered(bs + [b])
    requires b.previous.Some? ==>
      var found := FindBaseline(bs, b.system, b.previous.value);
      found.Some? && found.value.state == Approved && found.value.kind == b.kind
    ensures Linked(bs + [b])
  {
    var bs' := bs + [b];
    if b.previous.Some? {
      var k := FoundBaselineAt(bs, b.system, b.previous.value);
      LaterIsHigher(bs', k, |bs|);
      assert LinksBack(bs', |bs|, k);
    }
    hide CountLine, MaxVersion, FindBaseline, Numbered;
    forall i: nat | i < |bs| && bs'[i].previous.Some? ensures exists j: nat :: LinksBack(bs', i, j) {
      var j: nat :| LinksBack(bs, i, j);
      assert LinksBack(bs', i, j);
    }
  }

  lemma DraftKeepsVersioned(bs: seq<Baseline>, b: Baseline)
    requires Versioned(bs) && !BaselineIdTaken(bs, b.id) && b.state == Draft && b.approval == None
    requires b.version == MaxVersion(bs, b.system, b.kind) + 1
    requires b.previous.Some? ==>
      var found := FindBaseline(bs, b.system, b.previous.value);
      found.Some? && found.value.state == Approved && found.value.kind == b.kind
    ensures Versioned(bs + [b])
  {
    NumberedSnoc(bs, b);
    LinkedSnoc(bs, b);
    hide Numbered, Linked, MaxVersion, FindBaseline;
    forall i | 0 <= i < |bs| ensures bs[i].id != b.id { assert bs[i] in bs; }
  }

  lemma StepKeepsVersioned(bs: seq<Baseline>, call: BaselineCall)
    requires Versioned(bs)
    ensures Versioned(BaselineStep(bs, call))
  {
    hide Versioned, FindBaseline, MaxVersion, ApprovedRows, BaselineIdTaken, UniqueKeys;
    if BaselineAllowed(bs, call) {
      match call
      case CreateDraft(id, system, kind, entries, previous) =>
        var draft := Baseline(id, system, kind, MaxVersion(bs, system, kind) + 1, Draft, entries, None, previous);
        DraftKeepsVersioned(bs, draft);
      case Approve(system, id, approver, at) =>
        var k := FoundBaselineAt(bs, system, id);
        ApprovalKeepsVersioned(bs, k, approver, at);
    }
  }

  /** Over every run: one approved baseline per line at most, versions counted up, links to lower versions. */
  lemma {:induction false} EveryRunIsVersioned(calls: seq<BaselineCall>)
    ensures Versioned(BaselineRun([], calls))
  {
    hide BaselineStep;
    if calls != [] {
      EveryRunIsVersioned(calls[..|calls| - 1]);
      StepKeepsVersioned(BaselineRun([], calls[..|calls| - 1]), calls[|calls| - 1]);
    }
  }

  /** The versions of a line are exactly 1 to n, each once. */
  lemma VersionsAreOneToN(bs: seq<Baseline>, system: string, kind: BaselineKind, v: nat)
    requires Numbered(bs)
    ensures HasVersion(bs, system, kind, v) <==> 1 <= v <= CountLine(bs, system, kind)
    ensures forall i, j :: 0 <= i < j < |bs| && SameLine(bs[i], system, kind) && SameLine(bs[j], system, kind) ==>
      bs[i].version < bs[j].version
  {
    VersionsCover(bs, system, kind, v);
    hide CountLine, Numbered, HasVersion;
    forall i, j | 0 <= i < j < |bs| && SameLine(bs[i], system, kind) && SameLine(bs[j], system, kind)
      ensures bs[i].version < bs[j].version
    {
      LaterIsHigher(bs, i, j);
    }
  }

  ghost predicate HasVersion(bs: seq<Baseline>, system: string, kind: BaselineKind, v: nat) {
    exists b :: b in bs && SameLine(b, system, kind) && b.version == v
  }

  lemma HasVersionSnoc(bs: seq<Baseline>, last: Baseline, system: string, kind: BaselineKind, v: nat)
    ensures HasVersion(bs + [last], system, kind, v)
      <==> HasVersion(bs, system, kind, v) || (SameLine(last, system, kind) && last.version == v)
  {
    assert last in bs + [last];
    if HasVersion(bs, system, kind, v) {
      var b :| b in bs && SameLine(b, system, kind) && b.version == v;
      assert b in bs + [last];
    }
  }

  lemma {:induction false} VersionsCover(bs: seq<Baseline>, system: string, kind: BaselineKind, v: nat)
    requires Numbered(bs)
    ensures HasVersion(bs, system, kind, v) <==> 1 <= v <= CountLine(bs, system, kind)
  {
    hide HasVersion;
    if bs == [] {
      NoVersion(system, kind, v);
    } else {
      var init, last := bs[..|bs| - 1], bs[|bs| - 1];
      assert last.version == CountLine(init, last.system, last.kind) + 1;
      NumberedPrefix(bs);
      hide Numbered;
      VersionsCover(init, system, kind, v);
      assert bs == init + [last];
      HasVersionSnoc(init, last, system, kind, v);
    }
  }

  lemma NoVersion(system: string, kind: BaselineKind, v: nat)
    ensures !HasVersion([], system, kind, v)
  {
  }

  /** The approved row of the highest version. */
  function CurrentApproved(bs: seq<Baseline>, system: string, kind: BaselineKind): Option<Baseline> {
    if bs == [] then None
    else
      var last, before := bs[|bs| - 1], CurrentApproved(bs[..|bs| - 1], system, kind);
      if SameLine(last, system, kind) && last.state == Approved && (before.None? || before.value.version < last.version)
      then Some(last) else before
  }

  lemma {:induction false} CurrentMeans(bs: seq<Baseline>, system: string, kind: BaselineKind)
    ensures CurrentApproved(bs, system, kind).Some? ==>
      var b := CurrentApproved(bs, system, kind).value;
      b in bs && SameLine(b, system, kind) && b.state == Approved
    ensures CurrentApproved(bs, system, kind).None? ==>
      forall b :: b in bs ==> !(SameLine(b, system, kind) && b.state == Approved)
  {
    if bs != [] {
      assert bs == bs[..|bs| - 1] + [bs[|bs| - 1]];
      CurrentMeans(bs[..|bs| - 1], system, kind);
    }
  }

  /** After an approval the approved draft is the current baseline of its line. */
  lemma ApprovalBecomesCurrent(bs: seq<Baseline>, system: string, id: string, approver: string, at: int)
    requires Versioned(bs) && BaselineAllowed(bs, Approve(system, id, approver, at))
    ensures var kind := FindBaseline(bs, system, id).value.kind;
      var current := CurrentApproved(BaselineStep(bs, Approve(system, id, approver, at)), system, kind);
      current.Some? && current.value.id == id && current.value.approval == Some((approver, at))
  {
    var k := FoundBaselineAt(bs, system, id);
    var kind := bs[k].kind;
    var bs' := ApprovedRows(bs, system, kind, id, approver, at);
    ApprovalKeepsVersioned(bs, k, approver, at);
    ApprovedRowsAt(bs, system, kind, id, approver, at);
    CurrentMeans(bs', system, kind);
    hide ApprovedRows, CurrentApproved, FindBaseline, Numbered, Linked, Signed, BaselineIdsDistinct;
    assert bs'[k] in bs';
    var current := CurrentApproved(bs', system, kind);
    var j :| 0 <= j < |bs'| && bs'[j] == current.value;
    assert j == k;
  }
}

/** The stored tables and the transactional calls on them. */
module Decisions {
  import opened Common
  import opened DecisionModel
  import B = BaselineModel
  import Rows = DecisionRows

  class DecisionStore {
    var decisions: seq<Decision>
    var baselines: seq<B.Baseline>

    ghost predicate Valid()
      reads this
    {
      Chained(decisions) && B.Versioned(baselines)
    }

    constructor ()
      ensures Valid() && decisions == [] && baselines == []
    {
      decisions, baselines := [], [];
      new;
      EmptyIsChained();
    }

    /** Mark the superseded decision, then insert; a refusal after the first write is rolled back. */
    method CreateDecision(id: string, system: string, content: string, effectiveAt: int, expiresAt: Option<int>,
                          supersedes: Option<string>)
      returns (r: Option<Decision>)
      requires Valid()
      modifies this`decisions
      ensures Valid()
      ensures var call := DecisionCall.CreateDecision(id, system, content, effectiveAt, expiresAt, supersedes);
        && decisions == DecisionStep(old(decisions), call)
        && (r.Some? <==> DecisionAllowed(old(decisions), call))
        && (r.Some? ==> r.value == Decision(id, system, content, effectiveAt, expiresAt, DecisionActive, supersedes))
      ensures var row := Decision(id, system, content, effectiveAt, expiresAt, DecisionActive, supersedes);
        && (r.Some? <==> Rows.Creatable(old(decisions), row))
        && (r.Some? ==> r.value == row && Rows.RowAdded(old(decisions), decisions, row))
        && (r.None? ==> decisions == old(decisions))
    {
      ghost var call := DecisionCall.CreateDecision(id, system, content, effectiveAt, expiresAt, supersedes);
      hide Chained, FindDecision, WithStatus, DecisionIdTaken, B.Versioned;
      StepKeepsChains(decisions, call);
      Rows.CreationIs(decisions, Decision(id, system, content, effectiveAt, expiresAt, DecisionActive, supersedes));
      hide Rows.Creatable, Rows.RowAdded;
      if expiresAt.Some? && expiresAt.value <= effectiveAt { return None; }
      var saved := decisions;
      if supersedes.Some? {
        var prior := FindDecision(decisions, system, supersedes.value);
        if prior.None? || prior.value.status != DecisionActive { return None; }
        decisions := WithStatus(decisions, system, supersedes.value, DecisionSuperseded);
        MarkingKeepsIds(saved, system, supersedes.value, id);
      }
      if DecisionIdTaken(decisions, id) {
        decisions := saved;
        return None;
      }
      var created := Decision(id, system, content, effectiveAt, expiresAt, DecisionActive, supersedes);
      decisions := decisions + [created];
      r := Some(created);
    }

    method RevokeDecision(system: string, id: string) returns (ok: bool)
      requires Valid()
      modifies this`decisions
      ensures Valid()
      ensures decisions == DecisionStep(old(decisions), DecisionCall.RevokeDecision(system, id))
      ensures ok <==> ActiveDecision(old(decisions), system, id)
      ensures ok <==> Rows.HasActive(old(decisions), system, id)
      ensures ok ==> Rows.RowRevoked(old(decisions), decisions, system, id)
      ensures !ok ==> decisions == old(decisions)
    {
      Rows.ActiveIs(decisions, system, id);
      Rows.RevocationIs(decisions, system, id);
      hide Chained, FindDecision, WithStatus, B.Versioned, Rows.HasActive, Rows.RowRevoked;
      StepKeepsChains(decisions, DecisionCall.RevokeDecision(system, id));
      ok := ActiveDecision(decisions, system, id);
      if ok { decisions := WithStatus(decisions, system, id, DecisionRevoked); }
    }

    method CreateDraftBaseline(id: string, system: string, kind: B.BaselineKind, entries: seq<(string, string)>,
                               previous: Option<string>)
      returns (r: Option<B.Baseline>)
      requires Valid()
      modifies this`baselines
      ensures Valid()
      ensures var call := B.CreateDraft(id, system, kind, entries, previous);
        && baselines == B.BaselineStep(old(baselines), call)
        && (r.Some? <==> B.BaselineAllowed(old(baselines), call))
        && (r.Some? ==> baselines == old(baselines) + [r.value])
        && (r.Some? ==> r.value == B.Baseline(id, system, kind, B.MaxVersion(old(baselines), system, kind) + 1, B.Draft,
                                              entries, None, previous))
    {
      hide Chained, B.Versioned, B.FindBaseline, B.MaxVersion, B.UniqueKeys, B.BaselineIdTaken;
      B.StepKeepsVersioned(baselines, B.CreateDraft(id, system, kind, entries, previous));
      if entries == [] || !B.UniqueKeys(entries) { return None; }
      var version := B.MaxVersion(baselines, system, kind) + 1;
      if previous.Some? {
        var found := B.FindBaseline(baselines, system, previous.value);
        if found.None? || found.value.state != B.Approved || found.value.kind != kind { return None; }
      }
      if B.BaselineIdTaken(baselines, id) { return None; }
      var created := B.Baseline(id, system, kind, version, B.Draft, entries, None, previous);
      baselines := baselines + [created];
      r := Some(created);
    }

    /** Supersede the line's approved baseline, then approve the draft. */
    method ApproveBaseline(system: string, id: string, approver: string, at: int) returns (ok: bool)
      requires Valid()
      modifies this`baselines
      ensures Valid()
      ensures baselines == B.BaselineStep(old(baselines), B.Approve(system, id, approver, at))
      ensures ok <==> B.BaselineAllowed(old(baselines), B.Approve(system, id, approver, at))
      ensures ok <==> Rows.HasDraft(old(baselines), system, id)
      ensures ok ==> Rows.RowApproved(old(baselines), baselines, system, id, approver, at)
      ensures !ok ==> baselines == old(baselines)
    {
      Rows.ApprovalIs(baselines, system, id, approver, at);
      hide Rows.HasDraft, Rows.RowApproved;
      hide Chained, B.Versioned, B.FindBaseline, B.ApprovedRows;
      B.StepKeepsVersioned(baselines, B.Approve(system, id, approver, at));
      var found := B.FindBaseline(baselines, system, id);
      if found.None? || found.value.state != B.Draft { return false; }
      baselines := B.ApprovedRows(baselines, system, found.value.kind, id, approver, at);
      ok := true;
    }

    /** A new draft on top of the line's current approved baseline. */
    method CreateNextBaselineVersion(id: string, system: string, kind: B.BaselineKind, entries: seq<(string, string)>)
      returns (r: Option<B.Baseline>)
      requires Valid()
      modifies this`baselines
      ensures Valid()
      ensures var current := B.CurrentApproved(old(baselines), system, kind);
        && (current.None? ==> r.None? && baselines == old(baselines))
        && (current.Some? ==>
              baselines
              == B.BaselineStep(old(baselines), B.CreateDraft(id, system, kind, entries, Some(current.value.id))))
      ensures r.Some? ==>
        && r.value.previous.Some? && r.value.version == B.CountLine(old(baselines), system, kind) + 1
        && r.value.state == B.Draft
      ensures r.Some? ==>
        && baselines == old(baselines) + [r.value]
        && exists b :: b in old(baselines) && r.value.previous == Some(b.id)
             && b.system == system && b.kind == kind && b.state == B.Approved
      ensures r.Some? ==>
        r.value.id == id && r.value.system == system && r.value.kind == kind && r.value.entries == entries
      ensures r.Some? <==>
        && (exists b :: b in old(baselines) && b.system == system && b.kind == kind && b.state == B.Approved)
        && Rows.Draftable(old(baselines), id, system, kind, entries, None)
      ensures r.None? ==> baselines == old(baselines)
    {
      B.CurrentMeans(baselines, system, kind);
      B.MaxIsCount(baselines, system, kind);
      hide B.CurrentApproved, B.CountLine, B.MaxVersion, B.FindBaseline, B.Versioned, Chained;
      var current := B.CurrentApproved(baselines, system, kind);
      if current.None? { return None; }
      Rows.DraftIs(baselines, id, system, kind, entries, Some(current.value.id));
      Rows.DraftStepIs(baselines, id, system, kind, entries, Some(current.value.id));
      hide B.BaselineStep, B.BaselineAllowed;
      r := CreateDraftBaseline(id, system, kind, entries, Some(current.value.id));
    }
  }

  lemma MarkingKeepsIds(ds: seq<Decision>, system: string, id: string, other: string)
    ensures DecisionIdTaken(WithStatus(ds, system, id, DecisionSuperseded), other) <==> DecisionIdTaken(ds, other)
  {
    var ds' := WithStatus(ds, system, id, DecisionSuperseded);
    WithStatusAt(ds, system, id, DecisionSuperseded);
    hide WithStatus;
    if d :| d in ds && d.id == other {
      var i :| 0 <= i < |ds| && ds[i] == d;
      assert ds'[i] in ds' && ds'[i].id == other;
    }
    if d :| d in ds' && d.id == other {
      var i :| 0 <= i < |ds'| && ds'[i] == d;
      assert ds[i] in ds && ds[i].id == other;
    }
  }
}
