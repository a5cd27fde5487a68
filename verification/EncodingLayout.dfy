/** The canonical bytes spelled out: every length, tag and text at its place. */
module EncodingLayout {
  import opened Common
  import opened Bytes
  import opened Encoding

  // ----- texts

  /** One character: one to four bytes, a lead byte that tells how many, and six bits in each byte after it. */
  ghost predicate IsCharacter(bs: seq<byte>, n: int) {
    if n < 0x80 then bs == [n]
    else if n < 0x800 then |bs| == 2 && Follows(bs, 0xC0, 0xE0) && n == Six(bs[0], 0xC0) * 0x40 + Six(bs[1], 0x80)
    else if n < 0x1_0000 then
      |bs| == 3 && Follows(bs, 0xE0, 0xF0)
      && n == (Six(bs[0], 0xE0) * 0x40 + Six(bs[1], 0x80)) * 0x40 + Six(bs[2], 0x80)
    else
      |bs| == 4 && Follows(bs, 0xF0, 0xF8)
      && n == ((Six(bs[0], 0xF0) * 0x40 + Six(bs[1], 0x80)) * 0x40 + Six(bs[2], 0x80)) * 0x40 + Six(bs[3], 0x80)
  }

  /** What a byte adds to its marker. */
  function Six(b: byte, marker: int): int {
    b - marker
  }

  /** A lead byte in the given range, then only continuation bytes. */
  predicate Follows(bs: seq<byte>, low: int, high: int) {
    && bs != [] && low <= bs[0] < high
    && forall i :: 1 <= i < |bs| ==> 0x80 <= bs[i] < 0xC0
  }

  lemma Groups(n: nat)
    ensures n / 4096 == n / 64 / 64 && n / 26_2144 == n / 64 / 64 / 64
  {
    var a := n / 64;
    var b := a / 64;
    assert n == 64 * a + n % 64 && a == 64 * b + a % 64;
    assert n == 4096 * b + (64 * (a % 64) + n % 64);
    assert b == 64 * (b / 64) + b % 64;
    assert n == 26_2144 * (b / 64) + (4096 * (b % 64) + 64 * (a % 64) + n % 64);
  }

  lemma ScalarIsCharacter(n: int)
    requires IsScalar(n)
    ensures IsCharacter(EncodeScalar(n), n)
  {
    Groups(n);
    var a := n / 64;
    var b := a / 64;
    var c := b / 64;
    assert n == 64 * a + n % 64 && a == 64 * b + a % 64 && b == 64 * c + b % 64;
    if n < 0x80 {
    } else if n < 0x800 {
      assert EncodeScalar(n) == [0xC0 + a, 0x80 + n % 64];
    } else if n < 0x1_0000 {
      assert EncodeScalar(n) == [0xE0 + b, 0x80 + a % 64, 0x80 + n % 64];
    } else {
      assert EncodeScalar(n) == [0xF0 + c, 0x80 + b % 64, 0x80 + a % 64, 0x80 + n % 64];
    }
  }

  /** A text is its characters one after the other. */
  lemma TextIsCharacters(c: char, s: string)
    ensures exists bs :: IsCharacter(bs, c as int) && EncodeUtf8([c] + s) == bs + EncodeUtf8(s)
  {
    CharIsScalar(c);
    ScalarIsCharacter(c as int);
    assert ([c] + s)[1..] == s;
    hide IsCharacter, EncodeScalar;
    assert EncodeUtf8([c] + s) == EncodeScalar(c as int) + EncodeUtf8(s);
  }

  lemma CharIsScalar(c: char)
    ensures IsScalar(c as int)
  {
  }

  lemma {:induction false} AsciiIs(s: string)
    requires forall i :: 0 <= i < |s| ==> (s[i] as int) < 0x80
    ensures |EncodeUtf8(s)| == |s| && forall i :: 0 <= i < |s| ==> EncodeUtf8(s)[i] == s[i] as int
  {
    if s != "" {
      AsciiIs(s[1..]);
      assert EncodeScalar(s[0] as int) == [s[0] as int];
    }
  }

  const PARAMETER_TEXT := "CWT-PARAMETERS-V1\0"

  lemma ParameterTextStarts()
    ensures |PARAMETER_TEXT| == 18
    ensures forall i :: 0 <= i < 9 ==> PARAMETER_TEXT[i] as int == ParameterHeader()[i]
  {
    var s, h := PARAMETER_TEXT, ParameterHeader();
    assert s[0] as int == h[0] && s[1] as int == h[1] && s[2] as int == h[2];
    assert s[3] as int == h[3] && s[4] as int == h[4] && s[5] as int == h[5];
    assert s[6] as int == h[6] && s[7] as int == h[7] && s[8] as int == h[8];
  }

  lemma ParameterTextEnds()
    ensures |ParameterHeader()| == 18
    ensures forall i :: 9 <= i < 18 ==> PARAMETER_TEXT[i] as int == ParameterHeader()[i]
  {
    var s, h := PARAMETER_TEXT, ParameterHeader();
    assert s[9] as int == h[9] && s[10] as int == h[10] && s[11] as int == h[11];
    assert s[12] as int == h[12] && s[13] as int == h[13] && s[14] as int == h[14];
    assert s[15] as int == h[15] && s[16] as int == h[16] && s[17] as int == h[17];
  }

  lemma ParameterHeaderIs()
    ensures ParameterHeader() == EncodeUtf8(PARAMETER_TEXT)
  {
    ParameterTextStarts();
    ParameterTextEnds();
    hide ParameterHeader, EncodeUtf8;
    var s, h := PARAMETER_TEXT, ParameterHeader();
    forall i | 0 <= i < |s| ensures (s[i] as int) < 0x80 && s[i] as int == h[i] {
      assert s[i] as int == h[i] by { if i < 9 {} else {} }
      HeaderIsAscii(i);
    }
    AsciiIs(s);
  }

  lemma HeaderIsAscii(i: nat)
    requires i < |ParameterHeader()|
    ensures ParameterHeader()[i] < 0x80
  {
  }

  const TARGET_TEXT := "CWT-TARGET-V1\0"

  lemma TargetTextStarts()
    ensures |TARGET_TEXT| == 14
    ensures forall i :: 0 <= i < 7 ==> TARGET_TEXT[i] as int == TargetHeader()[i]
  {
    var s, h := TARGET_TEXT, TargetHeader();
    assert s[0] as int == h[0] && s[1] as int == h[1] && s[2] as int == h[2];
    assert s[3] as int == h[3] && s[4] as int == h[4] && s[5] as int == h[5] && s[6] as int == h[6];
  }

  lemma TargetTextEnds()
    ensures |TargetHeader()| == 14
    ensures forall i :: 7 <= i < 14 ==> TARGET_TEXT[i] as int == TargetHeader()[i]
  {
    var s, h := TARGET_TEXT, TargetHeader();
    assert s[7] as int == h[7] && s[8] as int == h[8] && s[9] as int == h[9];
    assert s[10] as int == h[10] && s[11] as int == h[11] && s[12] as int == h[12] && s[13] as int == h[13];
  }

  lemma TargetHeaderIs()
    ensures TargetHeader() == EncodeUtf8(TARGET_TEXT)
  {
    TargetTextStarts();
    TargetTextEnds();
    hide TargetHeader, EncodeUtf8;
    var s, h := TARGET_TEXT, TargetHeader();
    forall i | 0 <= i < |s| ensures (s[i] as int) < 0x80 && s[i] as int == h[i] {
      assert s[i] as int == h[i] by { if i < 7 {} else {} }
      TargetHeaderIsAscii(i);
    }
    AsciiIs(s);
  }

  lemma TargetHeaderIsAscii(i: nat)
    requires i < |TargetHeader()|
    ensures TargetHeader()[i] < 0x80
  {
  }

  // ----- numbers

  /** The last four digits to base 256. */
  function FourBytes(n: nat): seq<byte> {
    var a := n / 256;
    var b := a / 256;
    [b / 256 % 256, b % 256, a % 256, n % 256]
  }

  /** Lengths are written most significant byte first. */
  lemma NumbersAre(n: nat)
    ensures BigEndian(n, 1) == [n % 256]
    ensures BigEndian(n, 2) == [n / 256 % 256, n % 256]
    ensures BigEndian(n, 4) == FourBytes(n)
  {
    TwoDigits(n);
    FourDigits(n, n / 256, n / 256 / 256);
    hide BigEndian;
  }

  lemma FourDigits(n: nat, a: nat, b: nat)
    requires a == n / 256 && b == a / 256
    ensures BigEndian(n, 4) == [b / 256 % 256, b % 256, a % 256, n % 256]
  {
    LastDigit(n, 3);
    LastDigit(a, 2);
    TwoDigits(b);
    hide BigEndian;
  }

  lemma TwoDigits(n: nat)
    ensures BigEndian(n, 1) == [n % 256] && BigEndian(n, 2) == [n / 256 % 256, n % 256]
  {
    LastDigit(n, 0);
    LastDigit(n, 1);
    LastDigit(n / 256, 0);
    hide BigEndian;
  }

  lemma LastDigit(n: nat, width: nat)
    ensures BigEndian(n, width + 1) == BigEndian(n / 256, width) + [n % 256]
    ensures |BigEndian(n, 0)| == 0
  {
  }

  /** A text after its length in two or four bytes. */
  ghost predicate IsSized(bs: seq<byte>, s: string, width: nat) {
    var e := EncodeUtf8(s);
    var n := |e|;
    if width == 2 then bs == [n / 256 % 256, n % 256] + e
    else bs == FourBytes(n) + e
  }

  lemma SizedIs(s: string)
    ensures IsSized(Sized(s, 2), s, 2) && IsSized(Sized(s, 4), s, 4)
  {
    NumbersAre(|EncodeUtf8(s)|);
    hide EncodeUtf8, BigEndian, FourBytes;
  }

  // ----- parameters

  function KindLetter(k: ParameterKind): char {
    if k == TextKind then 'T' else if k == IntegerKind then 'I' else if k == BooleanKind then 'B' else 'D'
  }

  /** One parameter: its sized key, the letter of its kind, its sized value. */
  ghost predicate IsParameter(bs: seq<byte>, p: Parameter) {
    exists key: seq<byte>, value: seq<byte> ::
      IsSized(key, p.key, 2) && IsSized(value, p.value, 4) && bs == key + [KindLetter(p.kind) as int] + value
  }

  lemma ParameterIs(p: Parameter)
    ensures IsParameter(EncodeParameter(p), p)
  {
    SizedIs(p.key);
    SizedIs(p.value);
    TagIsLetter(p.kind);
    hide IsSized, Sized, ParameterTag, KindLetter;
  }

  lemma TagIsLetter(k: ParameterKind)
    ensures ParameterTag(k) == KindLetter(k) as int
  {
  }

  /** The bytes of a parameter list: the header, then each parameter in order. */
  lemma ParametersAre(ps: seq<Parameter>, p: Parameter)
    ensures EncodeParameters([]) == EncodeUtf8(PARAMETER_TEXT)
    ensures exists bs :: IsParameter(bs, p) && EncodeParameters(ps + [p]) == EncodeParameters(ps) + bs
  {
    ParameterHeaderIs();
    ParameterIs(p);
    EncodeEachSnoc(ps, p);
    hide EncodeUtf8, EncodeParameter, ParameterHeader, IsParameter;
    assert EncodeParameters([]) == ParameterHeader();
    assert EncodeParameters(ps + [p]) == EncodeParameters(ps) + EncodeParameter(p);
  }

  // ----- targets

  function TargetLetter(k: TargetKind): char {
    if k == ApplicationTarget then 'A' else if k == SystemTarget then 'S' else if k == ReportTarget then 'R' else 'F'
  }

  /** Sized texts one after the other. */
  ghost predicate AreSized(bs: seq<byte>, ss: seq<string>)
    decreases |ss|
  {
    if ss == [] then bs == []
    else
      exists first: seq<byte>, rest: seq<byte> ::
        IsSized(first, ss[0], 2) && bs == first + rest && AreSized(rest, ss[1..])
  }

  /** A finding id after a one, or a zero. */
  ghost predicate IsFinding(bs: seq<byte>, finding: Option<string>) {
    if finding.None? then bs == [0] else exists id: seq<byte> :: IsSized(id, finding.value, 2) && bs == [1] + id
  }

  /** The header, the letter of the kind, the system, the number of reports, the reports, and the finding. */
  ghost predicate IsTarget(bs: seq<byte>, t: Target) {
    exists system: seq<byte>, reports: seq<byte>, finding: seq<byte> ::
      && IsSized(system, t.systemId, 4) && AreSized(reports, t.reportIds) && IsFinding(finding, t.findingId)
      && bs == EncodeUtf8(TARGET_TEXT) + [TargetLetter(t.kind) as int] + system + [|t.reportIds| % 256] + reports
               + finding
  }

  lemma {:induction false} ReportsAreSized(rs: seq<string>)
    ensures AreSized(EncodeReports(rs), rs)
  {
    hide IsSized, Sized;
    if rs != [] {
      SizedIs(rs[0]);
      ReportsAreSized(rs[1..]);
      assert EncodeReports(rs) == Sized(rs[0], 2) + EncodeReports(rs[1..]);
    }
  }

  lemma FindingIs(f: Option<string>)
    ensures IsFinding(EncodeFinding(f), f)
  {
    if f.Some? { SizedIs(f.value); }
    hide IsSized, Sized;
  }

  lemma TargetTagIsLetter(k: TargetKind)
    ensures TargetTag(k) == TargetLetter(k) as int
  {
  }

  lemma TargetIs(t: Target)
    ensures IsTarget(EncodeTarget(t), t)
  {
    TargetHeaderIs();
    TargetTagIsLetter(t.kind);
    SizedIs(t.systemId);
    NumbersAre(|t.reportIds|);
    ReportsAreSized(t.reportIds);
    FindingIs(t.findingId);
    hide IsSized, Sized, EncodeUtf8, TargetHeader, TargetTag, TargetLetter, EncodeReports, EncodeFinding, AreSized,
      IsFinding, BigEndian;
    var system, reports, finding := Sized(t.systemId, 4), EncodeReports(t.reportIds), EncodeFinding(t.findingId);
    assert IsSized(system, t.systemId, 4) && AreSized(reports, t.reportIds) && IsFinding(finding, t.findingId);
  }
}
