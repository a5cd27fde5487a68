/** Stored scores in the terms of their texts and numbers: what is stored, what is accepted, what is read back. */
module StoredScores {
  import opened Common
  import opened Orders
  import opened Text
  import opened Vocabulary
  import opened ScoringContracts
  import opened ScoringModel
  import opened ScoringReport

  // ----- closed values

  const SEVERITIES: seq<string> := ["INFO", "LOW", "MEDIUM", "HIGH", "CRITICAL"]

  const CATEGORY_NAMES: seq<string> := ["NETWORK_EXPOSURE", "FIREWALL_POSTURE", "OTHER_DETERMINISTIC_RISK"]

  /** What a contributor of a category and state is based on. */
  predicate IsBasis(category: string, state: string, basis: string) {
    || (category == "NETWORK_EXPOSURE" && state == "POTENTIAL" && basis == "POTENTIAL_LISTENER_EXPOSURE")
    || (category == "NETWORK_EXPOSURE" && state == "CONFIRMED" && basis == "CONFIRMED_LISTENER_EXPOSURE")
    || (category == "FIREWALL_POSTURE" && state == "POTENTIAL" && basis == "POTENTIAL_FIREWALL_POLICY_RISK")
    || (category == "FIREWALL_POSTURE" && state == "CONFIRMED" && basis == "CONFIRMED_FIREWALL_POLICY_RISK")
    || (category == "OTHER_DETERMINISTIC_RISK" && state == "POTENTIAL" && basis == "POTENTIAL_DETERMINISTIC_RISK")
    || (category == "OTHER_DETERMINISTIC_RISK" && state == "CONFIRMED" && basis == "CONFIRMED_DETERMINISTIC_RISK")
  }

  lemma CategoryParses(s: string)
    ensures ParseCategory(s) == (if s == "NETWORK_EXPOSURE" then Some(NetworkExposure)
                                 else if s == "FIREWALL_POSTURE" then Some(FirewallPosture)
                                 else if s == "OTHER_DETERMINISTIC_RISK" then Some(OtherDeterministicRisk)
                                 else None)
  {
  }

  lemma StateParses(s: string)
    ensures ParseState(s) == Some(Confirmed) <==> s == "CONFIRMED"
    ensures ParseState(s) == Some(Potential) <==> s == "POTENTIAL"
  {
  }

  lemma BasisParses(s: string)
    ensures ParseBasis(s) == Some(PotentialListenerExposure) <==> s == "POTENTIAL_LISTENER_EXPOSURE"
    ensures ParseBasis(s) == Some(ConfirmedListenerExposure) <==> s == "CONFIRMED_LISTENER_EXPOSURE"
    ensures ParseBasis(s) == Some(PotentialFirewallPolicyRisk) <==> s == "POTENTIAL_FIREWALL_POLICY_RISK"
    ensures ParseBasis(s) == Some(ConfirmedFirewallPolicyRisk) <==> s == "CONFIRMED_FIREWALL_POLICY_RISK"
    ensures ParseBasis(s) == Some(PotentialDeterministicRisk) <==> s == "POTENTIAL_DETERMINISTIC_RISK"
    ensures ParseBasis(s) == Some(ConfirmedDeterministicRisk) <==> s == "CONFIRMED_DETERMINISTIC_RISK"
  {
  }

  lemma ClosedValuesAre(c: StoredContributor)
    ensures ClosedValuesOk(c) <==> c.severity in SEVERITIES && IsBasis(c.category, c.state, c.basis)
  {
    CategoryParses(c.category);
    StateParses(c.state);
    BasisParses(c.basis);
    SeverityParses(c.severity);
    hide ParseCategory, ParseState, ParseBasis, ParseSeverity;
  }

  /** The place of a severity among the five. */
  lemma SeverityParses(s: string)
    ensures ParseSeverity(s).Some? <==> s in SEVERITIES
    ensures ParseSeverity(s).Some? ==> SEVERITIES[ParseSeverity(s).value.Rank()] == s
  {
    var all := SEVERITIES;
    assert all[0] == "INFO" && all[1] == "LOW" && all[2] == "MEDIUM" && all[3] == "HIGH" && all[4] == "CRITICAL";
  }

  // ----- texts and references

  /** Some text is left after stripping, not too much, and nothing of it is a control or format character. */
  ghost predicate Legible(s: string, maximum: nat, text: TextServices) {
    var t := text.Strip(s);
    && 1 <= |t| && |t| <= maximum
    && forall i :: 0 <= i < |t| ==>
         && 0x20 <= t[i] as int && !(0x7F <= t[i] as int && t[i] as int < 0xA0)
         && !text.isFormat(t[i])
  }

  lemma LegibleIs(s: string, maximum: nat, text: TextServices)
    ensures ReportText(s, maximum, text) <==> Legible(s, maximum, text)
  {
    var t := text.Strip(s);
    hide TextServices.Strip;
    assert forall i :: 0 <= i < |t| ==> t[i] in t;
    forall c | c in t ensures exists i :: 0 <= i < |t| && t[i] == c {}
  }

  /** Ids of the report, ascending after stripping, at most 4096. */
  ghost predicate Refers(ids: seq<string>, reportIds: set<string>, text: TextServices) {
    && 1 <= |ids| && |ids| <= 4096
    && (forall i :: 0 <= i < |ids| ==> Legible(ids[i], 512, text) && text.Strip(ids[i]) in reportIds)
    && forall i, j :: 0 <= i < j < |ids| ==>
         text.Strip(ids[i]) != text.Strip(ids[j]) && StrLe(text.Strip(ids[i]), text.Strip(ids[j]))
  }

  lemma RefersIs(ids: seq<string>, reportIds: set<string>, text: TextServices)
    ensures ReferencesOk(ids, reportIds, text) <==> Refers(ids, reportIds, text)
  {
    forall i | 0 <= i < |ids| { LegibleIs(ids[i], 512, text); }
    var stripped := Stripped(ids, text);
    hide Stripped, ReportText, Legible, TextServices.Strip, StrLe;
    assert Elems(stripped) <= reportIds <==> forall i :: 0 <= i < |ids| ==> text.Strip(ids[i]) in reportIds by {
      forall i | 0 <= i < |ids| ensures stripped[i] in Elems(stripped) {}
    }
  }

  // ----- contributors

  /** The base is the greatest penalty, no penalty is negative, and no more is charged than is due. */
  ghost predicate Charges(c: StoredContributor) {
    && 1 <= |c.atomicPenalties| && |c.atomicPenalties| <= 4096
    && (forall p :: p in c.atomicPenalties ==> 0 <= p && p <= c.basePenalty)
    && c.basePenalty in c.atomicPenalties
    && 0 <= c.appliedPenalty && c.appliedPenalty <= c.rawPenalty
  }

  lemma {:induction false} MaxIs(s: seq<int>)
    requires s != []
    ensures MaxInt(s) in s && forall p :: p in s ==> p <= MaxInt(s)
  {
    if |s| > 1 {
      MaxIs(s[1..]);
      assert s == [s[0]] + s[1..];
    }
  }

  lemma ChargesIs(c: StoredContributor)
    ensures PenaltiesOk(c) <==> Charges(c)
  {
    if c.atomicPenalties != [] {
      MaxIs(c.atomicPenalties);
      hide MaxInt;
      assert forall i :: 0 <= i < |c.atomicPenalties| ==> c.atomicPenalties[i] in c.atomicPenalties;
    }
  }

  ghost predicate IsContributor(c: StoredContributor, reportIds: set<string>, text: TextServices) {
    && Legible(c.groupId, 256, text)
    && c.severity in SEVERITIES && IsBasis(c.category, c.state, c.basis)
    && Refers(c.findingIds, reportIds, text)
    && Charges(c)
  }

  lemma ContributorIs(c: StoredContributor, reportIds: set<string>, text: TextServices)
    ensures ContributorOk(c, reportIds, text) <==> IsContributor(c, reportIds, text)
  {
    LegibleIs(c.groupId, 256, text);
    ClosedValuesAre(c);
    RefersIs(c.findingIds, reportIds, text);
    ChargesIs(c);
    hide ReportText, Legible, ClosedValuesOk, IsBasis, ReferencesOk, Refers, PenaltiesOk, Charges;
  }

  /** Two contributors cite nothing in common. */
  ghost predicate CiteApart(a: StoredContributor, b: StoredContributor, text: TextServices) {
    forall x, y :: x in a.findingIds && y in b.findingIds ==> text.Strip(x) != text.Strip(y)
  }

  /** At most 4096 contributors, by ascending group id, no finding cited twice. */
  ghost predicate AreContributors(cs: seq<StoredContributor>, reportIds: set<string>, text: TextServices) {
    && |cs| <= 4096
    && (forall i :: 0 <= i < |cs| ==> IsContributor(cs[i], reportIds, text))
    && forall i, j :: 0 <= i < j < |cs| ==>
         && text.Strip(cs[i].groupId) != text.Strip(cs[j].groupId)
         && StrLe(text.Strip(cs[i].groupId), text.Strip(cs[j].groupId))
         && CiteApart(cs[i], cs[j], text)
  }

  lemma MemberAt(s: seq<string>, i: nat)
    requires i < |s|
    ensures s[i] in s
  {
  }

  lemma ApartIs(a: StoredContributor, b: StoredContributor, text: TextServices)
    ensures Elems(Stripped(a.findingIds, text)) !! Elems(Stripped(b.findingIds, text)) <==> CiteApart(a, b, text)
  {
    var s, t := Stripped(a.findingIds, text), Stripped(b.findingIds, text);
    hide Stripped, TextServices.Strip;
    if CiteApart(a, b, text) {
      forall x | x in s && x in t ensures false {
        var i :| 0 <= i < |s| && s[i] == x;
        var j :| 0 <= j < |t| && t[j] == x;
        MemberAt(a.findingIds, i);
        MemberAt(b.findingIds, j);
      }
    } else {
      var x, y :| x in a.findingIds && y in b.findingIds && text.Strip(x) == text.Strip(y);
      var i :| 0 <= i < |a.findingIds| && a.findingIds[i] == x;
      var j :| 0 <= j < |b.findingIds| && b.findingIds[j] == y;
      assert s[i] in Elems(s) && t[j] in Elems(t) && s[i] == t[j];
    }
  }

  lemma ContributorsAre(cs: seq<StoredContributor>, reportIds: set<string>, text: TextServices)
    ensures ContributorsOk(cs, reportIds, text) <==> AreContributors(cs, reportIds, text)
  {
    forall c { ContributorIs(c, reportIds, text); }
    forall i, j | 0 <= i < j < |cs| { ApartIs(cs[i], cs[j], text); }
    hide ContributorOk, IsContributor, CiteApart, Stripped, Elems, StrLe, TextServices.Strip;
  }

  // ----- totals

  function Due(cs: seq<StoredContributor>, category: string): int {
    if cs == [] then 0
    else
      var last := cs[|cs| - 1];
      Due(cs[..|cs| - 1], category) + if last.category == category then last.rawPenalty else 0
  }

  function Charged(cs: seq<StoredContributor>, category: string): int {
    if cs == [] then 0
    else
      var last := cs[|cs| - 1];
      Charged(cs[..|cs| - 1], category) + if last.category == category then last.appliedPenalty else 0
  }

  function ChargedInAll(cs: seq<StoredContributor>): int {
    if cs == [] then 0 else ChargedInAll(cs[..|cs| - 1]) + cs[|cs| - 1].appliedPenalty
  }

  lemma {:induction false} TotalsGrow(cs: seq<StoredContributor>, last: StoredContributor, category: string)
    ensures RawIn(cs + [last], category)
      == RawIn(cs, category) + if last.category == category then last.rawPenalty else 0
    ensures AppliedIn(cs + [last], category)
      == AppliedIn(cs, category) + if last.category == category then last.appliedPenalty else 0
  {
    if cs == [] {
      assert cs + [last] == [last];
    } else {
      assert (cs + [last])[1..] == cs[1..] + [last];
      TotalsGrow(cs[1..], last, category);
    }
  }

  lemma {:induction false} TotalsAre(cs: seq<StoredContributor>, category: string)
    ensures RawIn(cs, category) == Due(cs, category) && AppliedIn(cs, category) == Charged(cs, category)
  {
    if cs != [] {
      var init, last := cs[..|cs| - 1], cs[|cs| - 1];
      TotalsAre(init, category);
      TotalsGrow(init, last, category);
      assert cs == init + [last];
    }
  }

  lemma {:induction false} AllIsThree(cs: seq<StoredContributor>, a: string, b: string, c: string)
    requires a != b && b != c && a != c
    requires forall x :: x in cs ==> x.category == a || x.category == b || x.category == c
    ensures ChargedInAll(cs) == Charged(cs, a) + Charged(cs, b) + Charged(cs, c)
  {
    if cs != [] {
      var init, last := cs[..|cs| - 1], cs[|cs| - 1];
      assert cs == init + [last] && last in cs;
      AllIsThree(init, a, b, c);
    }
  }

  lemma {:induction false} ChargedIsDue(cs: seq<StoredContributor>, category: string)
    requires forall c :: c in cs ==> 0 <= c.appliedPenalty <= c.rawPenalty
    ensures 0 <= Charged(cs, category) <= Due(cs, category) && 0 <= ChargedInAll(cs)
  {
    if cs != [] {
      assert cs == cs[..|cs| - 1] + [cs[|cs| - 1]];
      ChargedIsDue(cs[..|cs| - 1], category);
    }
  }

  lemma NamesApart()
    ensures CATEGORY_NAMES[0] != CATEGORY_NAMES[1] && CATEGORY_NAMES[1] != CATEGORY_NAMES[2]
      && CATEGORY_NAMES[0] != CATEGORY_NAMES[2]
    ensures forall n ::
      n in CATEGORY_NAMES ==> n == CATEGORY_NAMES[0] || n == CATEGORY_NAMES[1] || n == CATEGORY_NAMES[2]
  {
    var names := CATEGORY_NAMES;
    assert names[0] == "NETWORK_EXPOSURE" && names[1] == "FIREWALL_POSTURE" && names[2] == "OTHER_DETERMINISTIC_RISK";
    assert names[0][0] == 'N' && names[1][0] == 'F' && names[2][0] == 'O';
  }

  // ----- the guardrail

  ghost predicate ConfirmedAt(cs: seq<StoredContributor>, severity: string) {
    exists c :: c in cs && c.state == "CONFIRMED" && c.severity == severity
  }

  /** The gravest severity of a confirmed contributor, none if nothing is confirmed. */
  ghost predicate IsHighest(highest: Option<string>, cs: seq<StoredContributor>) {
    match highest
    case None => forall c :: c in cs ==> c.state != "CONFIRMED"
    case Some(severity) =>
      exists k ::
        && 0 <= k < 5 && SEVERITIES[k] == severity && ConfirmedAt(cs, severity)
        && forall j :: k < j < 5 ==> !ConfirmedAt(cs, SEVERITIES[j])
  }

  /** The gravest of the confirmed, by rank. */
  ghost predicate IsGravest(found: Option<Severity>, cs: seq<StoredContributor>) {
    && (found == None <==> forall c :: c in cs ==> c.state != "CONFIRMED")
    && (found.Some? ==>
          && (exists c :: c in cs && c.state == "CONFIRMED" && ParseSeverity(c.severity) == found)
          && forall c :: c in cs && c.state == "CONFIRMED" && ParseSeverity(c.severity).Some? ==>
               ParseSeverity(c.severity).value.Rank() <= found.value.Rank())
  }

  lemma {:induction false} ExpectedIsGravest(cs: seq<StoredContributor>)
    requires forall c :: c in cs ==> ParseSeverity(c.severity).Some?
    ensures IsGravest(ExpectedHighest(cs), cs)
  {
    hide ParseSeverity, ParseState, Severity.Rank;
    if cs != [] {
      assert cs == [cs[0]] + cs[1..];
      ExpectedIsGravest(cs[1..]);
      StateParses(cs[0].state);
    }
  }

  lemma SeverityAt(severity: Severity)
    ensures 0 <= severity.Rank() < 5 && ParseSeverity(SEVERITIES[severity.Rank()]) == Some(severity)
  {
    var all := SEVERITIES;
    assert all[0] == "INFO" && all[1] == "LOW" && all[2] == "MEDIUM" && all[3] == "HIGH" && all[4] == "CRITICAL";
    SeverityParses(all[severity.Rank()]);
  }

  lemma RanksApart(a: Severity, b: Severity)
    ensures a.Rank() == b.Rank() ==> a == b
  {
  }

  lemma ConfirmedMeans(cs: seq<StoredContributor>, severity: Severity)
    requires forall c :: c in cs ==> c.severity in SEVERITIES
    ensures 0 <= severity.Rank() < 5
    ensures ConfirmedAt(cs, SEVERITIES[severity.Rank()])
      <==> exists c :: c in cs && c.state == "CONFIRMED" && ParseSeverity(c.severity) == Some(severity)
  {
    SeverityAt(severity);
    forall c | c in cs { SeverityParses(c.severity); }
    hide ParseSeverity, Severity.Rank;
  }

  lemma PlacesApart(j: nat, k: nat)
    requires j < 5 && k < 5 && SEVERITIES[j] == SEVERITIES[k]
    ensures j == k
  {
    var all := SEVERITIES;
    assert all[0] == "INFO" && all[1] == "LOW" && all[2] == "MEDIUM" && all[3] == "HIGH" && all[4] == "CRITICAL";
    assert |all[j]| == |all[k]| && all[j][0] == all[k][0];
  }

  lemma SeverityOfPlace(j: nat) returns (severity: Severity)
    requires j < 5
    ensures severity.Rank() == j
  {
    severity := if j == 0 then Info else if j == 1 then Low else if j == 2 then Medium else if j == 3 then High
                else Critical;
  }

  lemma GravestIsHighest(name: string, severity: Severity, cs: seq<StoredContributor>)
    requires ParseSeverity(name) == Some(severity) && forall c :: c in cs ==> c.severity in SEVERITIES
    ensures IsGravest(Some(severity), cs) ==> IsHighest(Some(name), cs)
  {
    SeverityParses(name);
    ConfirmedMeans(cs, severity);
    if IsGravest(Some(severity), cs) {
      forall j | severity.Rank() < j < 5 ensures !ConfirmedAt(cs, SEVERITIES[j]) {
        var graver := SeverityOfPlace(j);
        ConfirmedMeans(cs, graver);
        hide ParseSeverity, Severity.Rank, ConfirmedAt;
      }
      hide ParseSeverity, ConfirmedAt, Severity.Rank;
    }
  }

  lemma HighestIsGravest(name: string, severity: Severity, cs: seq<StoredContributor>)
    requires ParseSeverity(name) == Some(severity) && forall c :: c in cs ==> c.severity in SEVERITIES
    ensures IsHighest(Some(name), cs) ==> IsGravest(Some(severity), cs)
  {
    SeverityParses(name);
    ConfirmedMeans(cs, severity);
    if IsHighest(Some(name), cs) {
      var k :| 0 <= k < 5 && SEVERITIES[k] == name && ConfirmedAt(cs, name)
        && forall j :: k < j < 5 ==> !ConfirmedAt(cs, SEVERITIES[j]);
      PlacesApart(k, severity.Rank());
      forall c | c in cs && c.state == "CONFIRMED" && ParseSeverity(c.severity).Some?
        ensures ParseSeverity(c.severity).value.Rank() <= severity.Rank()
      {
        ConfirmedMeans(cs, ParseSeverity(c.severity).value);
        hide ParseSeverity, Severity.Rank, ConfirmedAt;
      }
      hide ParseSeverity, ConfirmedAt, Severity.Rank;
    }
  }

  lemma GravestIsOne(a: Option<Severity>, b: Option<Severity>, cs: seq<StoredContributor>)
    requires IsGravest(a, cs) && IsGravest(b, cs)
    ensures a == b
  {
    hide ParseSeverity, Severity.Rank;
    if a.Some? && b.Some? { RanksApart(a.value, b.value); }
  }

  lemma HighestIs(highest: Option<string>, cs: seq<StoredContributor>)
    requires forall c :: c in cs ==> c.severity in SEVERITIES
    ensures IsHighest(highest, cs) <==>
      && (highest.Some? ==> ParseSeverity(highest.value).Some?)
      && (if highest.Some? then ParseSeverity(highest.value) else None) == ExpectedHighest(cs)
  {
    forall c | c in cs { SeverityParses(c.severity); }
    ExpectedIsGravest(cs);
    hide ExpectedHighest;
    var parsed := if highest.Some? then ParseSeverity(highest.value) else None;
    if highest.Some? {
      SeverityParses(highest.value);
      if parsed.Some? {
        GravestIsHighest(highest.value, parsed.value, cs);
        HighestIsGravest(highest.value, parsed.value, cs);
      }
      hide ParseSeverity, IsGravest, ConfirmedAt;
      assert IsHighest(highest, cs) ==> highest.value in SEVERITIES;
      hide IsHighest;
      if parsed.Some? && IsGravest(parsed, cs) { GravestIsOne(parsed, ExpectedHighest(cs), cs); }
    } else {
      hide ParseSeverity;
    }
  }

  // ----- what is accepted

  ghost predicate IsHeader(s: StoredScore, text: TextServices) {
    && 0 <= s.totalPenalty && s.totalPenalty <= 100 && s.score == 100 - s.totalPenalty
    && Legible(s.riskLevel, 32, text) && text.Strip(s.riskLevel) in {"LOW", "MODERATE", "HIGH", "CRITICAL"}
    && forall name :: name in s.counts ==> name in SEVERITIES && 0 <= s.counts[name]
  }

  /** The three categories in order, each with what its contributors owe and are charged. */
  ghost predicate AreCategories(categories: seq<StoredCategory>, cs: seq<StoredContributor>) {
    && |categories| == 3
    && forall i :: 0 <= i < 3 ==>
         && categories[i].category == CATEGORY_NAMES[i]
         && categories[i].rawPenalty == Due(cs, CATEGORY_NAMES[i])
         && categories[i].appliedPenalty == Charged(cs, CATEGORY_NAMES[i])
  }

  /** What the contributors are not charged for is the guardrail's, and the guardrail names the score it enforces. */
  ghost predicate IsGuardrail(g: StoredGuardrail, cs: seq<StoredContributor>, total: int) {
    && IsHighest(g.highestConfirmed, cs)
    && g.categoryTotal == ChargedInAll(cs) && g.effectiveTotal == total
    && g.additional == total - ChargedInAll(cs) && 0 <= g.additional
    && (if ChargedInAll(cs) == total then !g.applied && g.ceiling == None
        else g.applied && g.ceiling == Some(100 - total))
  }

  lemma HeaderIs(s: StoredScore, text: TextServices)
    ensures HeaderOk(s, text) <==> IsHeader(s, text)
  {
    LegibleIs(s.riskLevel, 32, text);
    var all := SEVERITIES;
    assert all[0] == "INFO" && all[1] == "LOW" && all[2] == "MEDIUM" && all[3] == "HIGH" && all[4] == "CRITICAL";
    assert forall name :: name in SEVERITY_NAMES <==> name in SEVERITIES;
    hide Legible, ReportText, TextServices.Strip;
  }

  lemma NamesParse(i: nat)
    requires i < 3
    ensures ParseCategory(CATEGORY_NAMES[i]) == Some(CATEGORIES[i])
    ensures forall s :: ParseCategory(s) == Some(CATEGORIES[i]) ==> s == CATEGORY_NAMES[i]
  {
    var names := CATEGORY_NAMES;
    assert names[0] == "NETWORK_EXPOSURE" && names[1] == "FIREWALL_POSTURE" && names[2] == "OTHER_DETERMINISTIC_RISK";
  }

  lemma CategoriesAre(categories: seq<StoredCategory>, cs: seq<StoredContributor>)
    requires forall c :: c in cs ==> c.category in CATEGORY_NAMES && 0 <= c.appliedPenalty <= c.rawPenalty
    ensures CategoriesOk(categories) && TotalsOk(categories, cs) <==> AreCategories(categories, cs)
    ensures AreCategories(categories, cs) ==> AppliedTotal(categories) == ChargedInAll(cs)
  {
    NamesApart();
    AllIsThree(cs, CATEGORY_NAMES[0], CATEGORY_NAMES[1], CATEGORY_NAMES[2]);
    forall name { ChargedIsDue(cs, name); }
    forall i | 0 <= i < 3 { NamesParse(i); }
    forall name { TotalsAre(cs, name); }
    ThreeCategories(categories);
    hide ParseCategory, RawIn, AppliedIn, Due, Charged, ChargedInAll, AppliedTotal;
  }

  lemma ThreeCategories(categories: seq<StoredCategory>)
    ensures |categories| == 3 ==>
      AppliedTotal(categories)
      == categories[0].appliedPenalty + categories[1].appliedPenalty + categories[2].appliedPenalty
  {
    if |categories| == 3 {
      var two, one := categories[1..], categories[2..];
      assert two[1..] == one && one[1..] == [] && two[0] == categories[1] && one[0] == categories[2];
      assert AppliedTotal(one) == one[0].appliedPenalty;
      assert AppliedTotal(two) == two[0].appliedPenalty + AppliedTotal(one);
    }
  }

  lemma GuardrailIs(g: StoredGuardrail, score: int, categories: seq<StoredCategory>, cs: seq<StoredContributor>,
                    total: int)
    requires forall c :: c in cs ==> c.severity in SEVERITIES && c.category in CATEGORY_NAMES
    requires forall c :: c in cs ==> 0 <= c.appliedPenalty <= c.rawPenalty
    requires AppliedTotal(categories) == ChargedInAll(cs) && 0 <= total <= 100 && score == 100 - total
    ensures GuardrailOk(g, score, categories, cs, total) <==> IsGuardrail(g, cs, total)
  {
    HighestIs(g.highestConfirmed, cs);
    ChargedIsDue(cs, "");
    hide IsHighest, ExpectedHighest, ParseSeverity, ChargedInAll, Charged, Due, AppliedTotal;
  }

  lemma ContributorsAreSane(cs: seq<StoredContributor>, reportIds: set<string>, text: TextServices)
    requires AreContributors(cs, reportIds, text)
    ensures forall c :: c in cs ==> c.severity in SEVERITIES && c.category in CATEGORY_NAMES
    ensures forall c :: c in cs ==> 0 <= c.appliedPenalty <= c.rawPenalty
  {
    var names := CATEGORY_NAMES;
    assert names[0] == "NETWORK_EXPOSURE" && names[1] == "FIREWALL_POSTURE" && names[2] == "OTHER_DETERMINISTIC_RISK";
    hide Legible, Refers, CiteApart, StrLe;
    forall c | c in cs ensures IsContributor(c, reportIds, text) {}
  }

  /**
   * A stored score is accepted exactly if its total and contributors are in order and everything
   * else is what they call for: the score, the three category totals and the guardrail.
   */
  lemma AcceptableExactlyWhen(s: StoredScore, reportIds: set<string>, text: TextServices)
    ensures Acceptable(s, reportIds, text) <==>
      && IsHeader(s, text)
      && AreContributors(s.contributors, reportIds, text)
      && AreCategories(s.categories, s.contributors)
      && IsGuardrail(s.guardrail, s.contributors, s.totalPenalty)
  {
    HeaderIs(s, text);
    ContributorsAre(s.contributors, reportIds, text);
    hide HeaderOk, ContributorsOk, AreCategories, IsGuardrail, CategoriesOk, TotalsOk, GuardrailOk, ChargedInAll;
    if IsHeader(s, text) && AreContributors(s.contributors, reportIds, text) {
      ContributorsAreSane(s.contributors, reportIds, text);
      CategoriesAre(s.categories, s.contributors);
      hide AreContributors;
      if AreCategories(s.categories, s.contributors) {
        GuardrailIs(s.guardrail, s.score, s.categories, s.contributors, s.totalPenalty);
      }
    }
    hide IsHeader, AreContributors;
  }

  // ----- what is handed on and what is stored

  /** The validator strips texts and fills in absent counts; every number stays. */
  lemma ValidatedIs(s: StoredScore, text: TextServices)
    ensures var v := NormalizedScore(s, text);
      && v.score == s.score && v.totalPenalty == s.totalPenalty
      && v.categories == s.categories && v.guardrail == s.guardrail
      && v.riskLevel == text.Strip(s.riskLevel)
      && (forall name :: name in v.counts <==> name in SEVERITIES)
      && (forall name :: name in SEVERITIES ==>
            name in v.counts && v.counts[name] == if name in s.counts then s.counts[name] else 0)
      && |v.contributors| == |s.contributors|
      && forall i :: 0 <= i < |s.contributors| ==> Reads(v.contributors[i], s.contributors[i], text)
  {
    var all := SEVERITIES;
    assert all[0] == "INFO" && all[1] == "LOW" && all[2] == "MEDIUM" && all[3] == "HIGH" && all[4] == "CRITICAL";
    assert forall name :: name in SEVERITY_NAMES <==> name in SEVERITIES;
    hide TextServices.Strip, Stripped;
  }

  /** The same contributor with its texts stripped. */
  ghost predicate Reads(v: StoredContributor, c: StoredContributor, text: TextServices) {
    && v.groupId == text.Strip(c.groupId)
    && |v.findingIds| == |c.findingIds|
    && (forall i :: 0 <= i < |v.findingIds| ==> v.findingIds[i] == text.Strip(c.findingIds[i]))
    && v.category == c.category && v.severity == c.severity && v.state == c.state && v.basis == c.basis
    && v.atomicPenalties == c.atomicPenalties && v.basePenalty == c.basePenalty
    && v.rawPenalty == c.rawPenalty && v.appliedPenalty == c.appliedPenalty
  }

  /** The stored form of a contributor, field by field. */
  ghost predicate Records(c: StoredContributor, g: ScoringRiskGroup) {
    && c.groupId == g.groupId && c.findingIds == g.findingIds
    && c.category == g.category.Value() && c.severity == g.severity.Value() && c.state == g.state.Value()
    && c.basis == g.basis.Value()
    && c.atomicPenalties == g.atomicPenalties && c.basePenalty == g.basePenalty
    && c.rawPenalty == g.rawPenalty && c.appliedPenalty == g.appliedPenalty
  }

  /** What is stored of a result: its own values, and the guardrail that explains its total. */
  lemma StoredIs(r: ScoringResult)
    ensures var s := Store(r);
      && s.score == r.score && s.riskLevel == r.riskLevel && s.totalPenalty == r.totalPenalty
      && |s.categories| == |r.categories| && |s.contributors| == |r.contributors|
      && (forall i :: 0 <= i < |r.categories| ==>
            && s.categories[i].category == r.categories[i].category.Value()
            && s.categories[i].rawPenalty == r.categories[i].rawPenalty
            && s.categories[i].appliedPenalty == r.categories[i].appliedPenalty
            && s.categories[i].saturated == r.categories[i].saturated)
      && (forall i :: 0 <= i < |r.contributors| ==> Records(s.contributors[i], r.contributors[i]))
      && (r.highestConfirmed == None ==> s.guardrail.highestConfirmed == None)
      && (forall h :: r.highestConfirmed == Some(h) ==> s.guardrail.highestConfirmed == Some(h.Value()))
  {
  }

  /** Each severity is stored with its count. */
  lemma {:induction false} StoredCountsAre(counts: seq<(Severity, nat)>, severity: Severity, n: nat)
    requires (severity, n) in counts && forall i, j :: 0 <= i < j < |counts| ==> counts[i].0 != counts[j].0
    ensures severity.Value() in StoreCounts(counts) && StoreCounts(counts)[severity.Value()] == n
  {
    var init, last := counts[..|counts| - 1], counts[|counts| - 1];
    assert counts == init + [last];
    if last.0 != severity {
      StoredCountsAre(init, severity, n);
      NamesDiffer(last.0, severity);
    } else {
      var i :| 0 <= i < |counts| && counts[i] == (severity, n);
      assert i == |counts| - 1;
    }
  }

  lemma NamesDiffer(a: Severity, b: Severity)
    ensures a.Value() == b.Value() ==> a == b
  {
    assert |a.Value()| == |b.Value()| && a.Value() == b.Value() ==> a.Value()[0] == b.Value()[0];
  }
}
