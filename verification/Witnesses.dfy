/**
 * What the results assume of digests excludes no input: for any findings and any ledger
 * some digest function of the right shape keeps the texts it is applied to apart.
 */
module Witnesses {
  import opened Orders
  import opened Text
  import opened ScoringContracts
  import opened ScoringPenalties
  import opened ScoringModel
  import opened ScoringReport
  import opened ScoringSerialization
  import opened LifecycleIdentity
  import opened MemoryModel
  import opened MemoryInvariant

  // ----- numbering texts with digests

  function HexDigit(d: nat): char
    requires d < 16
  {
    "0123456789abcdef"[d]
  }

  function Hex(n: nat, width: nat): string {
    if width == 0 then "" else Hex(n / 16, width - 1) + [HexDigit(n % 16)]
  }

  function Power16(width: nat): nat {
    if width == 0 then 1 else 16 * Power16(width - 1)
  }

  /** The number of digests there are. */
  function Digests(): nat { Power16(64) }

  predicate IsHexDigit(c: char) { '0' <= c <= '9' || 'a' <= c <= 'f' }

  lemma {:induction false} HexShape(n: nat, width: nat)
    ensures |Hex(n, width)| == width
    ensures forall i :: 0 <= i < width ==> IsHexDigit(Hex(n, width)[i])
  {
    if width > 0 { HexShape(n / 16, width - 1); }
  }

  lemma HexLast(n: nat, width: nat)
    requires width > 0
    ensures Hex(n, width) != [] && Hex(n, width)[|Hex(n, width)| - 1] == HexDigit(n % 16)
    ensures Hex(n, width)[..|Hex(n, width)| - 1] == Hex(n / 16, width - 1)
  {
  }

  lemma HexDigitsDiffer(a: nat, b: nat)
    requires a < 16 && b < 16 && a != b
    ensures HexDigit(a) != HexDigit(b)
  {
  }

  lemma {:induction false} HexInjective(m: nat, n: nat, width: nat)
    requires m < Power16(width) && n < Power16(width) && Hex(m, width) == Hex(n, width)
    ensures m == n
  {
    if width > 0 {
      HexLast(m, width);
      HexLast(n, width);
      if m % 16 != n % 16 { HexDigitsDiffer(m % 16, n % 16); }
      hide Hex, HexDigit;
      HexInjective(m / 16, n / 16, width - 1);
    }
  }

  function FirstIndex(us: seq<string>, u: string): (i: nat)
    ensures i <= |us| && (u in us ==> i < |us| && us[i] == u)
  {
    if us == [] || us[0] == u then 0 else 1 + FirstIndex(us[1..], u)
  }

  /** The services with each text of a list digested to its place in the list. */
  function Numbered(text: TextServices, us: seq<string>): TextServices {
    text.(sha256 := u => Hex(FirstIndex(us, u), 64))
  }

  lemma NumberedIsValid(text: TextServices, us: seq<string>)
    requires text.Valid()
    ensures Numbered(text, us).Valid()
  {
    var t := Numbered(text, us);
    forall u ensures IsHexDigest(t.sha256(u)) {
      HexShape(FirstIndex(us, u), 64);
      hide Hex, FirstIndex;
      var s := t.sha256(u);
      assert forall i :: 0 <= i < 64 ==> IsHexDigit(s[i]);
    }
  }

  lemma NumberedIsApart(text: TextServices, us: seq<string>, inputs: set<string>)
    requires |us| <= Digests() && forall u :: u in inputs ==> u in us
    ensures Numbered(text, us).CollisionFree(inputs)
  {
    hide Hex, FirstIndex, Power16;
    var t := Numbered(text, us);
    forall a, b | a in inputs && b in inputs && t.sha256(a) == t.sha256(b) ensures a == b {
      HexInjective(FirstIndex(us, a), FirstIndex(us, b), 64);
    }
  }

  // ----- scoring

  lemma {:induction false} SameStrip(text: TextServices, t: TextServices, s: string)
    requires t == text.(sha256 := t.sha256)
    ensures t.Strip(s) == text.Strip(s)
    decreases |s|
  {
    if s != "" {
      if text.isSpace(s[0]) { SameStrip(text, t, s[1..]); }
      else if text.isSpace(s[|s| - 1]) { SameStrip(text, t, s[..|s| - 1]); }
    }
  }

  lemma SameFindings(fs: set<ScoringFinding>, text: TextServices, t: TextServices)
    requires t == text.(sha256 := t.sha256)
    ensures ValidFindings(fs, t) <==> ValidFindings(fs, text)
    ensures GroupTexts(fs, t) == GroupTexts(fs, text)
  {
    forall s { SameStrip(text, t, s); }
    hide TextServices.Strip, NulJoin;
    forall f | f in fs ensures f.Valid(t) <==> f.Valid(text) {
      forall s, n ensures t.BoundedText(s, n) <==> text.BoundedText(s, n) {
        SameStrip(text, t, s);
      }
    }
    hide ScoringFinding.Valid, Eligible;
    forall f | f in fs ensures GroupKey(f, t) == GroupKey(f, text) {
    }
  }

  /** No finding set is excluded by the assumption the engine is proved under. */
  lemma ScoringIsUnrestricted(fs: set<ScoringFinding>, text: TextServices) returns (t: TextServices)
    requires text.Valid() && |GroupTexts(fs, text)| <= Digests()
    ensures t == text.(sha256 := t.sha256) && DigestsApart(fs, t)
    ensures ValidFindings(fs, t) <==> ValidFindings(fs, text)
  {
    hide GroupTexts, ValidFindings, Power16, Arrange;
    var us := Arrange(GroupTexts(fs, text));
    t := Numbered(text, us);
    SameFindings(fs, text, t);
    NumberedIsValid(text, us);
    NumberedIsApart(text, us, GroupTexts(fs, text));
  }

  /** Plain services: folding changes nothing, one space and one format character. */
  function PlainServices(): TextServices {
    TextServices(s => s, s => Hex(0, 64), c => c == ' ', c => c == '\U{200B}')
  }

  lemma PlainIsValid()
    ensures PlainServices().Valid()
  {
    HexShape(0, 64);
    hide Hex;
    assert forall i :: 0 <= i < 64 ==> IsHexDigit(Hex(0, 64)[i]);
  }

  function HiddenFinding(): ScoringFinding {
    RiskFinding("a\U{200B}b", OtherDeterministicRisk)
  }

  lemma PlainText(s: string, maximum: nat)
    requires 0 < |s| <= maximum && s[0] != ' ' && s[|s| - 1] != ' '
    requires forall i :: 0 <= i < |s| ==> !IsControl(s[i])
    ensures PlainServices().BoundedText(s, maximum)
  {
  }

  lemma HiddenIsValid()
    ensures HiddenFinding().Valid(PlainServices())
    ensures '\U{200B}' in HiddenFinding().findingId && Eligible(HiddenFinding())
  {
    var f := HiddenFinding();
    assert f.findingId[1] == '\U{200B}';
    PlainText(f.findingId, MAX_SCORING_FINDING_ID_LENGTH);
    PlainText(f.source, MAX_SCORING_TEXT_LENGTH);
    hide TextServices.BoundedText;
  }

  lemma AloneIsApart(f: ScoringFinding, text: TextServices)
    requires text.Valid() && f.Valid(text)
    ensures DigestsApart({f}, text) && ValidFindings({f}, text)
  {
    hide GroupKey, NulJoin, TextServices.Valid, ScoringFinding.Valid, Eligible;
  }

  /** A finding with a zero-width space in its id: valid, scored, and refused by the validator. */
  lemma HiddenCharacterIsRefused(reportIds: set<string>)
    ensures DigestsApart({HiddenFinding()}, PlainServices()) && ValidFindings({HiddenFinding()}, PlainServices())
    ensures !ScoringReport.Acceptable(Store(ScoreOf({HiddenFinding()}, PlainServices())), reportIds, PlainServices())
  {
    assert PlainServices().isFormat('\U{200B}');
    PlainIsValid();
    HiddenIsValid();
    hide *;
    AloneIsApart(HiddenFinding(), PlainServices());
    FormatCharacterIsRefused({HiddenFinding()}, HiddenFinding(), '\U{200B}', reportIds, PlainServices());
  }

  // ----- the ledger

  lemma SameHistory(a: Ledger, system: string, t: TextServices, u: TextServices)
    requires u == t.(sha256 := u.sha256)
    requires forall s :: s in ReportTexts(a) ==> t.sha256(s) == u.sha256(s)
    ensures EventsIn(a, system, t) == EventsIn(a, system, u)
  {
    hide NulJoin, Sort, OccurrencesOf, OccurrenceLe;
    forall x | x in a ensures ToReport(x, t) == ToReport(x, u) {
      ReportTextIn(a, x);
    }
    assert ReportsIn(a, system, t) == ReportsIn(a, system, u);
  }

  lemma {:induction false} NumberedByPrefix(text: TextServices, us: seq<string>, vs: seq<string>, u: string)
    requires u in us
    ensures Numbered(text, us + vs).sha256(u) == Numbered(text, us).sha256(u)
  {
    FirstIndexOfPrefix(us, vs, u);
  }

  lemma {:induction false} FirstIndexOfPrefix(us: seq<string>, vs: seq<string>, u: string)
    requires u in us
    ensures FirstIndex(us + vs, u) == FirstIndex(us, u)
  {
    if us[0] != u {
      assert (us + vs)[1..] == us[1..] + vs;
      FirstIndexOfPrefix(us[1..], vs, u);
    }
  }

  /** The services under which the reports of a ledger are numbered, its events not yet. */
  ghost function ReportsNumbered(a: Ledger, text: TextServices): TextServices {
    Numbered(text, Arrange(ReportTexts(a)))
  }

  /** No ledger is excluded by the assumptions the store is proved under. */
  lemma LedgerIsUnrestricted(a: Ledger, text: TextServices) returns (t: TextServices)
    requires text.Valid()
    requires |ReportTexts(a)| + |AllEventTexts(a, ReportsNumbered(a, text))| <= Digests()
    ensures t == text.(sha256 := t.sha256)
    ensures KeysApart(a, t) && t.CollisionFree(AllEventTexts(a, t))
  {
    hide NulJoin, Arrange, EventsIn, Power16, ReportTexts, EventTexts, Hex, FirstIndex;
    var us := Arrange(ReportTexts(a));
    var first := ReportsNumbered(a, text);
    var vs := Arrange(AllEventTexts(a, first));
    t := Numbered(text, us + vs);
    NumberedIsValid(text, us + vs);
    NumberedIsApart(text, us + vs, ReportTexts(a));
    forall u | u in ReportTexts(a) ensures first.sha256(u) == t.sha256(u) {
      NumberedByPrefix(text, us, vs, u);
    }
    forall x | x in a ensures EventsIn(a, x.system, first) == EventsIn(a, x.system, t) {
      SameHistory(a, x.system, first, t);
    }
    assert AllEventTexts(a, t) == AllEventTexts(a, first);
    NumberedIsApart(text, us + vs, AllEventTexts(a, t));
  }
}
