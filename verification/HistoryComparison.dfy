/** Pairwise comparison of two reports, and its agreement with one step of the lifecycle. */
module HistoryComparison {
  import opened Common
  import opened Orders
  import opened Coverage
  import opened Lifecycle
  import opened LifecycleLaws

  datatype Trend = Improved | Declined | Unchanged | Incomparable

  datatype Comparison<F> =
    Comparison(change: Option<int>, trend: Trend, added: seq<F>, resolved: seq<F>, uncertain: seq<F>)

  // ----- the index of a list of findings

  ghost predicate Repeats<F(!new)>(findings: seq<F>, identityOf: F -> string) {
    exists i, j :: 0 <= i < j < |findings| && identityOf(findings[i]) == identityOf(findings[j])
  }

  ghost function Ids<F(!new)>(findings: seq<F>, identityOf: F -> string): set<string> {
    set f | f in findings :: identityOf(f)
  }

  function LastWith<F>(findings: seq<F>, identityOf: F -> string, id: string): Option<F> {
    if findings == [] then None
    else
      var last := findings[|findings| - 1];
      if identityOf(last) == id then Some(last) else LastWith(findings[..|findings| - 1], identityOf, id)
  }

  lemma {:induction false} LastWithMeans<F(!new)>(findings: seq<F>, identityOf: F -> string, id: string)
    ensures LastWith(findings, identityOf, id).Some? <==> id in Ids(findings, identityOf)
    ensures LastWith(findings, identityOf, id).Some? ==>
      LastWith(findings, identityOf, id).value in findings
      && identityOf(LastWith(findings, identityOf, id).value) == id
  {
    if findings != [] {
      var init, last := findings[..|findings| - 1], findings[|findings| - 1];
      assert findings == init + [last];
      LastWithMeans(init, identityOf, id);
    }
  }

  /** Later findings replace earlier ones, unless duplicates are rejected: then the first repeat is reported. */
  method FindingIndex<F(!new)>(findings: seq<F>, identityOf: F -> string, rejectDuplicates: bool)
    returns (r: Result<map<string, F>, string>)
    ensures r.Err? <==> rejectDuplicates && Repeats(findings, identityOf)
    ensures r.Err? ==> exists j ::
      && 0 <= j < |findings| && r.error == identityOf(findings[j]) && !Repeats(findings[..j], identityOf)
      && r.error in Ids(findings[..j], identityOf)
    ensures r.Ok? ==> r.value.Keys == Ids(findings, identityOf)
    ensures r.Ok? ==> forall id :: id in r.value ==> LastWith(findings, identityOf, id) == Some(r.value[id])
  {
    var indexed: map<string, F> := map[];
    for i := 0 to |findings|
      invariant indexed.Keys == Ids(findings[..i], identityOf)
      invariant forall id :: id in indexed ==> LastWith(findings[..i], identityOf, id) == Some(indexed[id])
      invariant rejectDuplicates ==> !Repeats(findings[..i], identityOf)
    {
      var finding := findings[i];
      var identity := identityOf(finding);
      assert findings[..i + 1] == findings[..i] + [finding];
      if rejectDuplicates && identity in indexed {
        var k :| 0 <= k < i && identityOf(findings[..i][k]) == identity;
        assert identityOf(findings[k]) == identityOf(findings[i]);
        return Err(identity);
      }
      indexed := indexed[identity := finding];
    }
    assert findings[..|findings|] == findings;
    r := Ok(indexed);
  }

  // ----- the comparison

  ghost function AddedIds<F(!new)>(previous: seq<F>, current: seq<F>, identityOf: F -> string): set<string> {
    Ids(current, identityOf) - Ids(previous, identityOf)
  }

  ghost function ResolvedIds<F(!new)>(previous: seq<F>, current: seq<F>, coverage: Option<CoverageObject>,
                                      domains: Option<seq<string>>, identityOf: F -> string, sourceOf: F -> string,
                                      casefold: string -> string): set<string>
  {
    set id | id in Ids(previous, identityOf) - Ids(current, identityOf)
      && LastWith(previous, identityOf, id).Some?
      && CompleteForSource(casefold(sourceOf(LastWith(previous, identityOf, id).value)), coverage, domains)
  }

  ghost function UncertainIds<F(!new)>(previous: seq<F>, current: seq<F>, coverage: Option<CoverageObject>,
                                       domains: Option<seq<string>>, identityOf: F -> string, sourceOf: F -> string,
                                       casefold: string -> string): set<string>
  {
    Ids(previous, identityOf) - Ids(current, identityOf)
    - ResolvedIds(previous, current, coverage, domains, identityOf, sourceOf, casefold)
  }

  /** The last finding of each id, in id order. */
  ghost predicate Selects<F(!new)>(s: seq<F>, findings: seq<F>, identityOf: F -> string, ids: set<string>) {
    && |s| == |ids| == |Listing(ids, StrLe)|
    && forall k :: 0 <= k < |s| ==> LastWith(findings, identityOf, Listing(ids, StrLe)[k]) == Some(s[k])
  }

  method Select<F(!new)>(index: map<string, F>, ids: set<string>, ghost findings: seq<F>, ghost identityOf: F -> string)
    returns (s: seq<F>)
    requires ids <= index.Keys
    requires forall id :: id in index ==> LastWith(findings, identityOf, id) == Some(index[id])
    ensures Selects(s, findings, identityOf, ids)
  {
    var order := SortedListing(ids);
    s := [];
    for k := 0 to |order|
      invariant |s| == k
      invariant forall m :: 0 <= m < k ==> LastWith(findings, identityOf, order[m]) == Some(s[m])
    {
      s := s + [index[order[k]]];
    }
  }

  /** The ids that disappeared and whose absence the current coverage proves. */
  method ProvedGone<F(!new)>(was: map<string, F>, disappeared: set<string>, ghost previous: seq<F>,
                             ghost current: seq<F>, coverage: Option<CoverageObject>, domains: Option<seq<string>>,
                             ghost identityOf: F -> string, sourceOf: F -> string, casefold: string -> string)
    returns (ids: set<string>)
    requires was.Keys == Ids(previous, identityOf) && disappeared == was.Keys - Ids(current, identityOf)
    requires forall id :: id in was ==> LastWith(previous, identityOf, id) == Some(was[id])
    ensures ids == ResolvedIds(previous, current, coverage, domains, identityOf, sourceOf, casefold)
  {
    hide CompleteForSource, LastWith, Ids;
    ids := set id | id in disappeared && CompleteForSource(casefold(sourceOf(was[id])), coverage, domains);
  }

  lemma ResolvedAreGone<F(!new)>(previous: seq<F>, current: seq<F>, coverage: Option<CoverageObject>,
                                 domains: Option<seq<string>>, identityOf: F -> string, sourceOf: F -> string,
                                 casefold: string -> string)
    ensures ResolvedIds(previous, current, coverage, domains, identityOf, sourceOf, casefold)
      <= Ids(previous, identityOf) - Ids(current, identityOf)
  {
    hide CompleteForSource, LastWith, Ids;
  }

  method CompareReports<F(!new)>(
      previousScore: int, currentScore: int, previousVersion: string, currentVersion: string,
      previous: seq<F>, current: seq<F>, coverage: Option<CoverageObject>, domains: Option<seq<string>>,
      identityOf: F -> string, sourceOf: F -> string, rejectDuplicates: bool, casefold: string -> string)
    returns (r: Result<Comparison<F>, string>)
    ensures r.Err? <==> rejectDuplicates && (Repeats(previous, identityOf) || Repeats(current, identityOf))
    ensures r.Ok? ==>
      && Selects(r.value.added, current, identityOf, AddedIds(previous, current, identityOf))
      && Selects(r.value.resolved, previous, identityOf,
                 ResolvedIds(previous, current, coverage, domains, identityOf, sourceOf, casefold))
      && Selects(r.value.uncertain, previous, identityOf,
                 UncertainIds(previous, current, coverage, domains, identityOf, sourceOf, casefold))
    ensures r.Ok? ==>
      && (r.value.change.None? <==> previousVersion != currentVersion)
      && (r.value.trend == Incomparable <==> r.value.change.None?)
      && (r.value.change.Some? ==>
            && previousScore + r.value.change.value == currentScore
            && (r.value.trend == Improved <==> currentScore > previousScore)
            && (r.value.trend == Declined <==> currentScore < previousScore))
  {
    hide ResolvedIds, CompleteForSource, LastWith, Ids, Selects, Repeats;
    var change, trend := None, Incomparable;
    if previousVersion == currentVersion {
      var difference := currentScore - previousScore;
      change := Some(difference);
      trend := if difference > 0 then Improved else if difference < 0 then Declined else Unchanged;
    }
    var previousIndex := FindingIndex(previous, identityOf, rejectDuplicates);
    if previousIndex.Err? { return Err(previousIndex.error); }
    var currentIndex := FindingIndex(current, identityOf, rejectDuplicates);
    if currentIndex.Err? { return Err(currentIndex.error); }
    var was, isNow := previousIndex.value, currentIndex.value;
    var disappeared := was.Keys - isNow.Keys;
    ResolvedAreGone(previous, current, coverage, domains, identityOf, sourceOf, casefold);
    var resolvedIds := ProvedGone(was, disappeared, previous, current, coverage, domains, identityOf, sourceOf,
                                  casefold);
    var added := Select(isNow, isNow.Keys - was.Keys, current, identityOf);
    var resolved := Select(was, resolvedIds, previous, identityOf);
    var uncertain := Select(was, disappeared - resolvedIds, previous, identityOf);
    r := Ok(Comparison(change, trend, added, resolved, uncertain));
  }

  /** What is selected is exactly the findings of those ids, each once. */
  lemma SelectionMeans<F(!new)>(s: seq<F>, findings: seq<F>, identityOf: F -> string, ids: set<string>)
    requires Selects(s, findings, identityOf, ids)
    ensures forall f :: f in s ==> f in findings && identityOf(f) in ids
    ensures forall id :: id in ids ==> exists f :: f in s && identityOf(f) == id
    ensures forall i, j ::
      0 <= i < j < |s| ==> identityOf(s[i]) != identityOf(s[j]) && StrLe(identityOf(s[i]), identityOf(s[j]))
  {
    hide StrLe, LastWith, Listing;
    var order := Listing(ids, StrLe);
    StrLeIsTotal();
    ListingFacts(ids, StrLe);
    forall k | 0 <= k < |s| ensures s[k] in findings && identityOf(s[k]) == order[k] {
      LastWithMeans(findings, identityOf, order[k]);
    }
    forall id | id in ids ensures exists f :: f in s && identityOf(f) == id {
      var k :| 0 <= k < |order| && order[k] == id;
      assert s[k] in s;
    }
  }

  lemma Exchange<T>(was: set<T>, isNow: set<T>, resolved: set<T>)
    requires resolved <= was - isNow
    ensures var added, uncertain := isNow - was, was - isNow - resolved;
      && |was| + |added| == |isNow| + |resolved| + |uncertain|
      && added * resolved == {} && added * uncertain == {} && resolved * uncertain == {}
      && was + added == isNow + resolved + uncertain
  {
    var added, uncertain := isNow - was, was - isNow - resolved;
    assert was + added == isNow + (resolved + uncertain);
    assert was * added == {} && isNow * (resolved + uncertain) == {} && resolved * uncertain == {};
  }

  /** Nothing is lost between two reports: every id is accounted for exactly once. */
  lemma ComparisonAccountsForAll<F(!new)>(
      c: Comparison<F>, previous: seq<F>, current: seq<F>, coverage: Option<CoverageObject>,
      domains: Option<seq<string>>, identityOf: F -> string, sourceOf: F -> string, casefold: string -> string)
    requires Selects(c.added, current, identityOf, AddedIds(previous, current, identityOf))
    requires Selects(c.resolved, previous, identityOf,
                     ResolvedIds(previous, current, coverage, domains, identityOf, sourceOf, casefold))
    requires Selects(c.uncertain, previous, identityOf,
                     UncertainIds(previous, current, coverage, domains, identityOf, sourceOf, casefold))
    ensures |Ids(previous, identityOf)| + |c.added| == |Ids(current, identityOf)| + |c.resolved| + |c.uncertain|
    ensures Ids(c.added, identityOf) * Ids(c.resolved, identityOf) == {}
    ensures Ids(c.added, identityOf) * Ids(c.uncertain, identityOf) == {}
    ensures Ids(c.resolved, identityOf) * Ids(c.uncertain, identityOf) == {}
    ensures Ids(previous, identityOf) + Ids(c.added, identityOf)
      == Ids(current, identityOf) + Ids(c.resolved, identityOf) + Ids(c.uncertain, identityOf)
  {
    hide Ids, ResolvedIds, Selects;
    var was, isNow := Ids(previous, identityOf), Ids(current, identityOf);
    var resolved := ResolvedIds(previous, current, coverage, domains, identityOf, sourceOf, casefold);
    ResolvedAreGone(previous, current, coverage, domains, identityOf, sourceOf, casefold);
    SelectionIds(c.added, current, identityOf, isNow - was);
    SelectionIds(c.resolved, previous, identityOf, resolved);
    SelectionIds(c.uncertain, previous, identityOf, was - isNow - resolved);
    Exchange(was, isNow, resolved);
  }

  lemma SelectionIds<F(!new)>(s: seq<F>, findings: seq<F>, identityOf: F -> string, ids: set<string>)
    requires Selects(s, findings, identityOf, ids)
    ensures Ids(s, identityOf) == ids && |s| == |ids|
  {
    SelectionMeans(s, findings, identityOf, ids);
    hide StrLe, LastWith, Listing;
  }

  // ----- what is added, resolved and uncertain, report by report

  /** The entry that counts for its id: no later one has the same. */
  ghost predicate Counts<F>(findings: seq<F>, f: F, identityOf: F -> string) {
    exists j ::
      && 0 <= j < |findings| && findings[j] == f
      && forall k :: j < k < |findings| ==> identityOf(findings[k]) != identityOf(f)
  }

  ghost predicate Lists<F>(findings: seq<F>, id: string, identityOf: F -> string) {
    exists f :: f in findings && identityOf(f) == id
  }

  /** The later report's coverage shows everything the source needs as complete. */
  ghost predicate ShownComplete(source: string, coverage: Option<CoverageObject>, domains: Option<seq<string>>) {
    && Needs(source) != {} && ValidDomains(domains)
    && forall n :: n in Needs(source) ==>
         n in ApplicableNames(domains) && coverage.Some? && (n, "COMPLETE") in coverage.value
  }

  ghost predicate AscendingIds<F>(s: seq<F>, identityOf: F -> string) {
    forall i, j :: 0 <= i < j < |s| ==>
      identityOf(s[i]) != identityOf(s[j]) && StrLe(identityOf(s[i]), identityOf(s[j]))
  }

  lemma {:induction false} LastCounts<F(!new)>(findings: seq<F>, identityOf: F -> string, f: F)
    ensures LastWith(findings, identityOf, identityOf(f)) == Some(f) <==> Counts(findings, f, identityOf)
  {
    if findings != [] {
      var init, last := findings[..|findings| - 1], findings[|findings| - 1];
      assert findings == init + [last];
      LastCounts(init, identityOf, f);
      if identityOf(last) == identityOf(f) {
        if last == f { assert findings[|findings| - 1] == f; }
      } else {
        if Counts(init, f, identityOf) {
          var j :| 0 <= j < |init| && init[j] == f
            && forall k :: j < k < |init| ==> identityOf(init[k]) != identityOf(f);
          assert findings[j] == f;
        }
        if Counts(findings, f, identityOf) {
          var j :| 0 <= j < |findings| && findings[j] == f
            && forall k :: j < k < |findings| ==> identityOf(findings[k]) != identityOf(f);
          assert init[j] == f;
        }
      }
    }
  }

  lemma SelectionCounts<F(!new)>(s: seq<F>, findings: seq<F>, identityOf: F -> string, ids: set<string>, f: F)
    requires Selects(s, findings, identityOf, ids)
    ensures f in s <==> Counts(findings, f, identityOf) && identityOf(f) in ids
  {
    hide StrLe, LastWith, Listing, Counts;
    StrLeIsTotal();
    ListingFacts(ids, StrLe);
    LastCounts(findings, identityOf, f);
    var order := Listing(ids, StrLe);
    if f in s {
      var k :| 0 <= k < |s| && s[k] == f;
      LastWithMeans(findings, identityOf, order[k]);
    }
    if LastWith(findings, identityOf, identityOf(f)) == Some(f) && identityOf(f) in ids {
      var k :| 0 <= k < |order| && order[k] == identityOf(f);
      assert s[k] == f;
    }
  }

  lemma ListsIds<F(!new)>(findings: seq<F>, identityOf: F -> string, id: string)
    ensures id in Ids(findings, identityOf) <==> Lists(findings, id, identityOf)
  {
  }

  lemma ResolvedOf<F(!new)>(
      f: F, previous: seq<F>, current: seq<F>, coverage: Option<CoverageObject>, domains: Option<seq<string>>,
      identityOf: F -> string, sourceOf: F -> string, casefold: string -> string)
    requires coverage.Some? ==> DistinctNames(coverage.value)
    requires Counts(previous, f, identityOf)
    ensures identityOf(f) in ResolvedIds(previous, current, coverage, domains, identityOf, sourceOf, casefold) <==>
      !Lists(current, identityOf(f), identityOf) && ShownComplete(casefold(sourceOf(f)), coverage, domains)
    ensures identityOf(f) in UncertainIds(previous, current, coverage, domains, identityOf, sourceOf, casefold) <==>
      !Lists(current, identityOf(f), identityOf) && !ShownComplete(casefold(sourceOf(f)), coverage, domains)
  {
    LastCounts(previous, identityOf, f);
    LastWithMeans(previous, identityOf, identityOf(f));
    ListsIds(current, identityOf, identityOf(f));
    ReportProofIs(casefold(sourceOf(f)), coverage, domains);
    hide LastWith, Counts, Lists, Ids, CompleteForSource, Needs, ValidDomains, ApplicableNames;
  }

  /**
   * Added are the findings of the later report whose id the earlier does not have; resolved and
   * uncertain are those of the earlier whose id is gone, parted by what the later report's coverage
   * shows for their source. Where a report repeats an id its last entry counts; each list ascends by id.
   */
  lemma ComparisonIs<F(!new)>(
      c: Comparison<F>, f: F, previous: seq<F>, current: seq<F>, coverage: Option<CoverageObject>,
      domains: Option<seq<string>>, identityOf: F -> string, sourceOf: F -> string, casefold: string -> string)
    requires coverage.Some? ==> DistinctNames(coverage.value)
    requires Selects(c.added, current, identityOf, AddedIds(previous, current, identityOf))
    requires Selects(c.resolved, previous, identityOf,
                     ResolvedIds(previous, current, coverage, domains, identityOf, sourceOf, casefold))
    requires Selects(c.uncertain, previous, identityOf,
                     UncertainIds(previous, current, coverage, domains, identityOf, sourceOf, casefold))
    ensures f in c.added <==> Counts(current, f, identityOf) && !Lists(previous, identityOf(f), identityOf)
    ensures f in c.resolved <==>
      && Counts(previous, f, identityOf) && !Lists(current, identityOf(f), identityOf)
      && ShownComplete(casefold(sourceOf(f)), coverage, domains)
    ensures f in c.uncertain <==>
      && Counts(previous, f, identityOf) && !Lists(current, identityOf(f), identityOf)
      && !ShownComplete(casefold(sourceOf(f)), coverage, domains)
    ensures AscendingIds(c.added, identityOf) && AscendingIds(c.resolved, identityOf)
      && AscendingIds(c.uncertain, identityOf)
  {
    var added := AddedIds(previous, current, identityOf);
    var resolved := ResolvedIds(previous, current, coverage, domains, identityOf, sourceOf, casefold);
    var uncertain := UncertainIds(previous, current, coverage, domains, identityOf, sourceOf, casefold);
    hide Selects, Counts, Lists, Ids, AddedIds, ResolvedIds, UncertainIds, ShownComplete, AscendingIds;
    SelectionCounts(c.added, current, identityOf, added, f);
    SelectionCounts(c.resolved, previous, identityOf, resolved, f);
    SelectionCounts(c.uncertain, previous, identityOf, uncertain, f);
    SelectionAscends(c.added, current, identityOf, added);
    SelectionAscends(c.resolved, previous, identityOf, resolved);
    SelectionAscends(c.uncertain, previous, identityOf, uncertain);
    if Counts(current, f, identityOf) { AddedOf(f, previous, current, identityOf); }
    if Counts(previous, f, identityOf) {
      ResolvedOf(f, previous, current, coverage, domains, identityOf, sourceOf, casefold);
    }
  }

  lemma SelectionAscends<F(!new)>(s: seq<F>, findings: seq<F>, identityOf: F -> string, ids: set<string>)
    requires Selects(s, findings, identityOf, ids)
    ensures AscendingIds(s, identityOf)
  {
    SelectionMeans(s, findings, identityOf, ids);
    hide Selects, StrLe;
  }

  lemma AddedOf<F(!new)>(f: F, previous: seq<F>, current: seq<F>, identityOf: F -> string)
    requires Counts(current, f, identityOf)
    ensures identityOf(f) in AddedIds(previous, current, identityOf) <==> !Lists(previous, identityOf(f), identityOf)
  {
    CountsIsListed(current, f, identityOf);
    ListsIds(previous, identityOf, identityOf(f));
    ListsIds(current, identityOf, identityOf(f));
    hide Counts, Lists, Ids;
  }

  lemma CountsIsListed<F(!new)>(findings: seq<F>, f: F, identityOf: F -> string)
    requires Counts(findings, f, identityOf)
    ensures Lists(findings, identityOf(f), identityOf)
  {
  }

  // ----- agreement with the lifecycle

  function IdOf(o: Occurrence): string { o.findingId }

  function SourceOf(o: Occurrence): string { o.source }

  lemma {:induction false} LastWithIsFind(occurrences: seq<Occurrence>, id: FindingId)
    ensures LastWith(occurrences, IdOf, id) == Find(occurrences, id)
  {
    if occurrences != [] { LastWithIsFind(occurrences[..|occurrences| - 1], id); }
  }

  lemma InIdsIffFound(occurrences: seq<Occurrence>, id: FindingId)
    ensures id in Ids(occurrences, IdOf) <==> Find(occurrences, id).Some?
  {
    LastWithIsFind(occurrences, id);
    LastWithMeans(occurrences, IdOf, id);
  }

  /** The stored coverage of a report holds the entries of its normalised coverage, in any order. */
  ghost predicate Stores(r: Report, coverage: Option<CoverageObject>, domains: Option<seq<string>>) {
    && r.coverage.Some? && DistinctNames(r.coverage.value)
    && NormalizeDomains(domains).Some?
    && forall p :: p in r.coverage.value <==> p in Normalized(coverage, NormalizeDomains(domains).value)
  }

  lemma StoredProves(source: string, r: Report, coverage: Option<CoverageObject>, domains: Option<seq<string>>,
                     casefold: string -> string)
    requires Stores(r, coverage, domains)
    ensures Proves(source, r, casefold) <==> CompleteForSource(casefold(source), coverage, domains)
  {
    StoredDecidesSame(casefold(source), coverage, domains, r.coverage.value);
  }

  ghost function ResolvedBetween(p: Report, c: Report, coverage: Option<CoverageObject>, domains: Option<seq<string>>,
                                 casefold: string -> string): set<string>
  {
    ResolvedIds(p.occurrences, c.occurrences, coverage, domains, IdOf, SourceOf, casefold)
  }

  ghost function UncertainBetween(p: Report, c: Report, coverage: Option<CoverageObject>, domains: Option<seq<string>>,
                                  casefold: string -> string): set<string>
  {
    UncertainIds(p.occurrences, c.occurrences, coverage, domains, IdOf, SourceOf, casefold)
  }

  ghost predicate HasKind(es: seq<Event>, kind: EventType) {
    exists e :: e in es && e.kind == kind
  }

  lemma ResolvedBetweenMeans(p: Report, c: Report, coverage: Option<CoverageObject>, domains: Option<seq<string>>,
                             casefold: string -> string, id: FindingId)
    requires Stores(c, coverage, domains)
    ensures id in ResolvedBetween(p, c, coverage, domains, casefold) <==>
      InReport(p, id) && !InReport(c, id) && Proves(Find(p.occurrences, id).value.source, c, casefold)
    ensures id in UncertainBetween(p, c, coverage, domains, casefold) <==>
      InReport(p, id) && !InReport(c, id) && !Proves(Find(p.occurrences, id).value.source, c, casefold)
  {
    InIdsIffFound(p.occurrences, id);
    InIdsIffFound(c.occurrences, id);
    LastWithIsFind(p.occurrences, id);
    hide Find, LastWith, Ids, CompleteForSource, Proves, Stores;
    if InReport(p, id) { StoredProves(Find(p.occurrences, id).value.source, c, coverage, domains, casefold); }
  }

  /** Which events a step books for a finding. */
  lemma StepKinds(prior: Option<Summary>, r: Report, id: FindingId, casefold: string -> string)
    ensures var events := TrackStepEvents(prior, r, id, casefold);
      var resolved := prior.Some? && prior.value.state == Resolved;
      && (HasKind(events, FirstSeen) <==> InReport(r, id) && prior.None?)
      && (HasKind(events, Reopened) <==> InReport(r, id) && resolved)
      && (HasKind(events, Seen) <==> InReport(r, id) && prior.Some? && !resolved)
      && (HasKind(events, ResolvedEvent) <==>
            !InReport(r, id) && prior.Some? && !resolved && Proves(prior.value.source, r, casefold))
  {
    hide Find, Proves;
    if InReport(r, id) {
      var head, rest := SightingThenChanges(prior, Find(r.occurrences, id).value);
      hide ObserveEvents;
      assert ([head] + rest)[0] == head;
    } else if prior.Some? && prior.value.state != Resolved && Proves(prior.value.source, r, casefold) {
      assert MissEvents(prior.value, r, casefold)[0].kind == ResolvedEvent;
    }
  }

  /**
   * For a finding of the earlier of two consecutive reports: compared as resolved iff the
   * lifecycle step resolves it, as uncertain iff the step leaves it uncertain.
   */
  lemma ComparisonAgreesOnDisappearance(h: History, coverage: Option<CoverageObject>, domains: Option<seq<string>>,
                                        casefold: string -> string, id: FindingId)
    requires |h| >= 2 && Stores(h[|h| - 1], coverage, domains)
    requires InReport(h[|h| - 2], id)
    ensures var p, c := h[|h| - 2], h[|h| - 1];
      var before, after := Track(h[..|h| - 1], id, casefold), Track(h, id, casefold);
      var events := TrackStepEvents(before, c, id, casefold);
      && before.Some? && before.value.state == Active && after.Some?
      && (id in ResolvedBetween(p, c, coverage, domains, casefold) <==> after.value.state == Resolved)
      && (id in ResolvedBetween(p, c, coverage, domains, casefold) <==> HasKind(events, ResolvedEvent))
      && (id in UncertainBetween(p, c, coverage, domains, casefold) <==> after.value.state == ResolutionUncertain)
      && (id in Ids(c.occurrences, IdOf) <==> after.value.state == Active)
  {
    var p, c, init := h[|h| - 2], h[|h| - 1], h[..|h| - 1];
    assert init[|init| - 1] == p;
    LifecycleClosedForm(init, id, casefold);
    ResolvedBetweenMeans(p, c, coverage, domains, casefold, id);
    InIdsIffFound(c.occurrences, id);
    assert LastIn(init, id) == |init| - 1;
    var before := Track(init, id, casefold);
    assert before.value.source == Find(p.occurrences, id).value.source;
    hide Find, Proves, LastIn, FirstIn, ProvedAfter, ResolvedBetween, UncertainBetween, Stores, Ids, TrackStepEvents,
      HasKind;
    StepKinds(before, c, id, casefold);
  }

  /**
   * Compared as added iff the lifecycle books it as first seen, reopened, or seen again
   * after uncertainty; other findings of the later report were active before.
   */
  lemma ComparisonAgreesOnAppearance(h: History, casefold: string -> string, id: FindingId)
    requires |h| >= 2
    ensures var p, c := h[|h| - 2], h[|h| - 1];
      var before := Track(h[..|h| - 1], id, casefold);
      var events := TrackStepEvents(before, c, id, casefold);
      id in AddedIds(p.occurrences, c.occurrences, IdOf) <==>
        || HasKind(events, FirstSeen)
        || HasKind(events, Reopened)
        || (HasKind(events, Seen) && before.Some? && before.value.state == ResolutionUncertain)
  {
    var p, c, init := h[|h| - 2], h[|h| - 1], h[..|h| - 1];
    assert init[|init| - 1] == p;
    LifecycleClosedForm(init, id, casefold);
    InIdsIffFound(p.occurrences, id);
    InIdsIffFound(c.occurrences, id);
    var before := Track(init, id, casefold);
    assert InReport(p, id) <==> before.Some? && before.value.state == Active;
    hide Find, Proves, LastIn, FirstIn, ProvedAfter, Ids, TrackStepEvents, HasKind, Track;
    StepKinds(before, c, id, casefold);
  }
}
