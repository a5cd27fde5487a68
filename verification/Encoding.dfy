/** UTF-8 (RFC 3629 section 3) and fixed-width big-endian lengths, with strict decoders. */
module Bytes {
  import opened Common

  type byte = b: int | 0 <= b < 256

  function Power(width: nat): nat {
    if width == 0 then 1 else 256 * Power(width - 1)
  }

  function BigEndian(n: nat, width: nat): (bs: seq<byte>)
    ensures |bs| == width
  {
    if width == 0 then [] else BigEndian(n / 256, width - 1) + [n % 256]
  }

  function FromBigEndian(bs: seq<byte>): nat {
    if bs == [] then 0 else 256 * FromBigEndian(bs[..|bs| - 1]) + bs[|bs| - 1]
  }

  lemma {:induction false} BigEndianInverts(n: nat, width: nat)
    requires n < Power(width)
    ensures FromBigEndian(BigEndian(n, width)) == n
  {
    if width > 0 {
      BigEndianInverts(n / 256, width - 1);
      assert BigEndian(n, width)[..width - 1] == BigEndian(n / 256, width - 1);
    }
  }

  lemma {:induction false} FromBigEndianInverts(bs: seq<byte>)
    ensures FromBigEndian(bs) < Power(|bs|) && BigEndian(FromBigEndian(bs), |bs|) == bs
  {
    if bs != [] {
      var init, last := bs[..|bs| - 1], bs[|bs| - 1];
      FromBigEndianInverts(init);
      assert FromBigEndian(bs) / 256 == FromBigEndian(init) && FromBigEndian(bs) % 256 == last;
      assert bs == init + [last];
    }
  }

  // ----- UTF-8

  predicate IsScalar(n: int) {
    0 <= n < 0xD800 || 0xE000 <= n < 0x11_0000
  }

  function EncodeScalar(n: int): seq<byte>
    requires IsScalar(n)
  {
    if n < 0x80 then [n]
    else if n < 0x800 then [0xC0 + n / 64, 0x80 + n % 64]
    else if n < 0x1_0000 then [0xE0 + n / 4096, 0x80 + n / 64 % 64, 0x80 + n % 64]
    else [0xF0 + n / 26_2144, 0x80 + n / 4096 % 64, 0x80 + n / 64 % 64, 0x80 + n % 64]
  }

  function EncodeUtf8(s: string): seq<byte> {
    if s == "" then [] else EncodeScalar(s[0] as int) + EncodeUtf8(s[1..])
  }

  /** How many bytes a leading byte announces; 0 where it cannot lead. */
  function Announced(lead: byte): (n: nat)
    ensures n <= 4
  {
    if lead < 0x80 then 1
    else if lead < 0xC0 then 0
    else if lead < 0xE0 then 2
    else if lead < 0xF0 then 3
    else if lead < 0xF8 then 4
    else 0
  }

  function Carried(b: byte, marker: int): int {
    b - marker
  }

  /** The number carried by the payload bits. */
  function Payload(bs: seq<byte>): int
    requires 1 <= |bs| <= 4
  {
    if |bs| == 1 then bs[0]
    else if |bs| == 2 then Carried(bs[0], 0xC0) * 64 + Carried(bs[1], 0x80)
    else if |bs| == 3 then Carried(bs[0], 0xE0) * 4096 + Carried(bs[1], 0x80) * 64 + Carried(bs[2], 0x80)
    else
      Carried(bs[0], 0xF0) * 26_2144 + Carried(bs[1], 0x80) * 4096 + Carried(bs[2], 0x80) * 64 + Carried(bs[3], 0x80)
  }

  /** Strict: overlong forms, surrogates and stray bytes are rejected. */
  function DecodeUtf8(bs: seq<byte>): Option<string> {
    if bs == [] then Some("")
    else
      var n := Announced(bs[0]);
      if n == 0 || n > |bs| then None
      else
        var v := Payload(bs[..n]);
        if !IsScalar(v) || EncodeScalar(v) != bs[..n] then None
        else
          var rest := DecodeUtf8(bs[n..]);
          if rest.None? then None else Some([v as char] + rest.value)
  }

  lemma Base64Digits(n: nat)
    ensures n == 64 * (n / 64) + n % 64
    ensures n / 64 == 64 * (n / 4096) + n / 64 % 64
    ensures n / 4096 == 64 * (n / 26_2144) + n / 4096 % 64
  {
  }

  lemma ScalarLength(n: int)
    requires IsScalar(n)
    ensures |EncodeScalar(n)| == if n < 0x80 then 1 else if n < 0x800 then 2 else if n < 0x1_0000 then 3 else 4
  {
  }

  lemma ScalarRoundTrip(n: int)
    requires IsScalar(n)
    ensures 1 <= |EncodeScalar(n)| <= 4
    ensures Announced(EncodeScalar(n)[0]) == |EncodeScalar(n)|
    ensures Payload(EncodeScalar(n)) == n
  {
    ScalarLength(n);
    Base64Digits(n);
    var bs := EncodeScalar(n);
    if n < 0x80 {
      assert bs[0] == n;
    } else if n < 0x800 {
      assert bs[0] == 0xC0 + n / 64 && bs[1] == 0x80 + n % 64;
    } else if n < 0x1_0000 {
      assert bs[0] == 0xE0 + n / 4096 && bs[1] == 0x80 + n / 64 % 64 && bs[2] == 0x80 + n % 64;
      hide EncodeScalar;
    } else {
      assert bs[0] == 0xF0 + n / 26_2144 && bs[1] == 0x80 + n / 4096 % 64 && bs[2] == 0x80 + n / 64 % 64
        && bs[3] == 0x80 + n % 64;
      hide EncodeScalar;
    }
  }

  lemma {:induction false} Utf8RoundTrip(s: string)
    ensures DecodeUtf8(EncodeUtf8(s)) == Some(s)
    ensures |EncodeUtf8(s)| <= 4 * |s|
  {
    if s != "" {
      var n := s[0] as int;
      ScalarRoundTrip(n);
      Utf8RoundTrip(s[1..]);
      hide EncodeScalar, Payload, Announced;
      var head, tail := EncodeScalar(n), EncodeUtf8(s[1..]);
      var bs := EncodeUtf8(s);
      assert bs == head + tail;
      assert bs[..|head|] == head && bs[|head|..] == tail && bs[0] == head[0];
      assert n as char == s[0] && [s[0]] + s[1..] == s;
    }
  }

  /** Accepted bytes are encodings. */
  lemma {:induction false} Utf8DecodesOnlyEncodings(bs: seq<byte>)
    requires DecodeUtf8(bs).Some?
    ensures EncodeUtf8(DecodeUtf8(bs).value) == bs
  {
    hide EncodeScalar, Payload, Announced;
    if bs != [] {
      var n := Announced(bs[0]);
      var v := Payload(bs[..n]);
      Utf8DecodesOnlyEncodings(bs[n..]);
      var s := DecodeUtf8(bs).value;
      assert s[0] as int == v && s[1..] == DecodeUtf8(bs[n..]).value;
      assert bs == bs[..n] + bs[n..];
    }
  }

  // ----- length-prefixed text

  /** Text short enough for its length field. */
  predicate Fits(s: string, width: nat) {
    |EncodeUtf8(s)| < Power(width)
  }

  function Sized(s: string, width: nat): seq<byte> {
    BigEndian(|EncodeUtf8(s)|, width) + EncodeUtf8(s)
  }

  /** Text and what follows it. */
  function TakeSized(bs: seq<byte>, width: nat): Option<(string, seq<byte>)> {
    if |bs| < width then None
    else
      var n := FromBigEndian(bs[..width]);
      if |bs| < width + n then None
      else
        var s := DecodeUtf8(bs[width..width + n]);
        if s.None? then None else Some((s.value, bs[width + n..]))
  }

  lemma SizedRoundTrip(s: string, width: nat, rest: seq<byte>)
    requires Fits(s, width)
    ensures TakeSized(Sized(s, width) + rest, width) == Some((s, rest))
  {
    Utf8RoundTrip(s);
    var u := EncodeUtf8(s);
    BigEndianInverts(|u|, width);
    hide EncodeUtf8, DecodeUtf8, BigEndian, FromBigEndian, Power;
    var bs := BigEndian(|u|, width) + u + rest;
    assert bs == Sized(s, width) + rest;
    assert bs[..width] == BigEndian(|u|, width) && bs[width..width + |u|] == u && bs[width + |u|..] == rest;
  }

  lemma TakenIsSized(bs: seq<byte>, width: nat)
    requires TakeSized(bs, width).Some?
    ensures var (s, rest) := TakeSized(bs, width).value;
      Fits(s, width) && bs == Sized(s, width) + rest
  {
    hide EncodeUtf8, DecodeUtf8, BigEndian, FromBigEndian, Power;
    var n := FromBigEndian(bs[..width]);
    FromBigEndianInverts(bs[..width]);
    Utf8DecodesOnlyEncodings(bs[width..width + n]);
    assert bs == bs[..width] + bs[width..width + n] + bs[width + n..];
  }
}

/** Canonical bytes of capability parameters and targets. */
module Encoding {
  import opened Common
  import opened Orders
  import opened Bytes

  datatype ParameterKind = TextKind | IntegerKind | BooleanKind | TimestampKind

  datatype Parameter = Parameter(key: string, kind: ParameterKind, value: string)

  datatype TargetKind = ApplicationTarget | SystemTarget | ReportTarget | FindingTarget

  datatype Target = Target(kind: TargetKind, systemId: string, reportIds: seq<string>, findingId: Option<string>)

  const MAX_PARAMETERS := 32

  /** The length limits of the contracts: keys of 64, values of 1024, systems of 4096, findings of 512 characters. */
  predicate ValidParameter(p: Parameter) {
    |p.key| <= 64 && |p.value| <= 1024
  }

  predicate ValidTarget(t: Target) {
    && |t.systemId| <= 4096
    && |t.reportIds| <= 2 && (forall r :: r in t.reportIds ==> |r| == 71)
    && (t.findingId.Some? ==> |t.findingId.value| <= 512)
  }

  /** "CWT-PARAMETERS-V1", NUL */
  function ParameterHeader(): seq<byte> {
    [67, 87, 84, 45, 80, 65, 82, 65, 77, 69, 84, 69, 82, 83, 45, 86, 49, 0]
  }

  /** "CWT-TARGET-V1", NUL */
  function TargetHeader(): seq<byte> {
    [67, 87, 84, 45, 84, 65, 82, 71, 69, 84, 45, 86, 49, 0]
  }

  /** T, I, B, D */
  function ParameterTag(k: ParameterKind): byte {
    match k
    case TextKind => 84
    case IntegerKind => 73
    case BooleanKind => 66
    case TimestampKind => 68
  }

  function ParameterOfTag(b: byte): Option<ParameterKind> {
    if b == 84 then Some(TextKind)
    else if b == 73 then Some(IntegerKind)
    else if b == 66 then Some(BooleanKind)
    else if b == 68 then Some(TimestampKind)
    else None
  }

  /** A, S, R, F */
  function TargetTag(k: TargetKind): byte {
    match k
    case ApplicationTarget => 65
    case SystemTarget => 83
    case ReportTarget => 82
    case FindingTarget => 70
  }

  function TargetOfTag(b: byte): Option<TargetKind> {
    if b == 65 then Some(ApplicationTarget)
    else if b == 83 then Some(SystemTarget)
    else if b == 82 then Some(ReportTarget)
    else if b == 70 then Some(FindingTarget)
    else None
  }

  // ----- every length fits its field

  lemma Powers()
    ensures Power(1) == 0x100 && Power(2) == 0x1_0000 && Power(4) == 0x1_0000_0000
  {
    assert Power(3) == 0x100_0000;
  }

  lemma ParameterFits(p: Parameter)
    requires ValidParameter(p)
    ensures Fits(p.key, 2) && Fits(p.value, 4)
  {
    Powers();
    Utf8RoundTrip(p.key);
    Utf8RoundTrip(p.value);
  }

  lemma TargetFits(t: Target)
    requires ValidTarget(t)
    ensures Fits(t.systemId, 4) && (forall r :: r in t.reportIds ==> Fits(r, 2)) && |t.reportIds| < Power(1)
    ensures t.findingId.Some? ==> Fits(t.findingId.value, 2)
  {
    Powers();
    Utf8RoundTrip(t.systemId);
    forall r | r in t.reportIds ensures Fits(r, 2) { Utf8RoundTrip(r); }
    if t.findingId.Some? { Utf8RoundTrip(t.findingId.value); }
  }

  // ----- parameters

  function EncodeParameter(p: Parameter): seq<byte> {
    Sized(p.key, 2) + [ParameterTag(p.kind)] + Sized(p.value, 4)
  }

  function EncodeEach(ps: seq<Parameter>): seq<byte> {
    if ps == [] then [] else EncodeParameter(ps[0]) + EncodeEach(ps[1..])
  }

  function EncodeParameters(ps: seq<Parameter>): seq<byte> {
    ParameterHeader() + EncodeEach(ps)
  }

  function TakeParameter(bs: seq<byte>): Option<(Parameter, seq<byte>)> {
    var key := TakeSized(bs, 2);
    if key.None? || key.value.1 == [] then None
    else
      var kind := ParameterOfTag(key.value.1[0]);
      var value := TakeSized(key.value.1[1..], 4);
      if kind.None? || value.None? then None
      else Some((Parameter(key.value.0, kind.value, value.value.0), value.value.1))
  }

  function DecodeEach(bs: seq<byte>): Option<seq<Parameter>>
    decreases |bs|
  {
    if bs == [] then Some([])
    else
      var first := TakeParameter(bs);
      if first.None? || |first.value.1| >= |bs| then None
      else
        var rest := DecodeEach(first.value.1);
        if rest.None? then None else Some([first.value.0] + rest.value)
  }

  function DecodeParameters(bs: seq<byte>): Option<seq<Parameter>> {
    if ParameterHeader() <= bs then DecodeEach(bs[|ParameterHeader()|..]) else None
  }

  predicate ParameterFitsIn(p: Parameter) {
    Fits(p.key, 2) && Fits(p.value, 4)
  }

  lemma ParameterRoundTrip(p: Parameter, rest: seq<byte>)
    requires ParameterFitsIn(p)
    ensures TakeParameter(EncodeParameter(p) + rest) == Some((p, rest))
    ensures |EncodeParameter(p)| >= 7
  {
    hide TakeSized, Sized, Fits;
    var tail := [ParameterTag(p.kind)] + (Sized(p.value, 4) + rest);
    assert EncodeParameter(p) + rest == Sized(p.key, 2) + tail;
    SizedRoundTrip(p.key, 2, tail);
    SizedRoundTrip(p.value, 4, rest);
    assert tail[1..] == Sized(p.value, 4) + rest;
    assert |Sized(p.key, 2)| >= 2 && |Sized(p.value, 4)| >= 4 by { SizedLength(p.key, 2); SizedLength(p.value, 4); }
  }

  lemma SizedLength(s: string, width: nat)
    ensures |Sized(s, width)| >= width
  {
  }

  lemma TakenIsParameter(bs: seq<byte>)
    requires TakeParameter(bs).Some?
    ensures var (p, rest) := TakeParameter(bs).value;
      ParameterFitsIn(p) && bs == EncodeParameter(p) + rest
  {
    hide TakeSized, Sized, Fits;
    var key := TakeSized(bs, 2).value;
    var value := TakeSized(key.1[1..], 4).value;
    TakenIsSized(bs, 2);
    TakenIsSized(key.1[1..], 4);
    assert key.1 == [key.1[0]] + key.1[1..];
  }

  ghost predicate AllFit(ps: seq<Parameter>) {
    forall p :: p in ps ==> ParameterFitsIn(p)
  }

  lemma {:induction false} EachRoundTrip(ps: seq<Parameter>)
    requires AllFit(ps)
    ensures DecodeEach(EncodeEach(ps)) == Some(ps)
  {
    hide TakeParameter, EncodeParameter, ParameterFitsIn;
    if ps != [] {
      assert ps[0] in ps;
      assert forall p :: p in ps[1..] ==> p in ps;
      ParameterRoundTrip(ps[0], EncodeEach(ps[1..]));
      EachRoundTrip(ps[1..]);
      assert ps == [ps[0]] + ps[1..];
    }
  }

  lemma {:induction false} EachDecodesOnlyEncodings(bs: seq<byte>)
    requires DecodeEach(bs).Some?
    ensures AllFit(DecodeEach(bs).value) && EncodeEach(DecodeEach(bs).value) == bs
    decreases |bs|
  {
    hide TakeParameter, EncodeParameter, ParameterFitsIn;
    if bs != [] {
      TakenIsParameter(bs);
      EachDecodesOnlyEncodings(TakeParameter(bs).value.1);
      var ps := DecodeEach(bs).value;
      assert ps[1..] == DecodeEach(TakeParameter(bs).value.1).value;
    }
  }

  /** The decoder accepts exactly the encodings, and returns what was encoded. */
  lemma ParametersDecodeUniquely(bs: seq<byte>, ps: seq<Parameter>)
    requires AllFit(ps)
    ensures DecodeParameters(bs) == Some(ps) <==> bs == EncodeParameters(ps)
  {
    hide EncodeEach, DecodeEach, ParameterFitsIn;
    if bs == EncodeParameters(ps) {
      assert bs[|ParameterHeader()|..] == EncodeEach(ps);
      EachRoundTrip(ps);
    }
    if DecodeParameters(bs) == Some(ps) {
      EachDecodesOnlyEncodings(bs[|ParameterHeader()|..]);
      assert bs == ParameterHeader() + bs[|ParameterHeader()|..];
    }
  }

  // ----- targets

  function EncodeReports(rs: seq<string>): seq<byte> {
    if rs == [] then [] else Sized(rs[0], 2) + EncodeReports(rs[1..])
  }

  function EncodeFinding(f: Option<string>): seq<byte> {
    if f.None? then [0] else [1] + Sized(f.value, 2)
  }

  function EncodeTarget(t: Target): seq<byte> {
    TargetHeader() + [TargetTag(t.kind)] + Sized(t.systemId, 4) + BigEndian(|t.reportIds|, 1)
    + EncodeReports(t.reportIds) + EncodeFinding(t.findingId)
  }

  function TakeReports(bs: seq<byte>, n: nat): Option<(seq<string>, seq<byte>)> {
    if n == 0 then Some(([], bs))
    else
      var first := TakeSized(bs, 2);
      if first.None? then None
      else
        var rest := TakeReports(first.value.1, n - 1);
        if rest.None? then None else Some(([first.value.0] + rest.value.0, rest.value.1))
  }

  function DecodeFinding(bs: seq<byte>): Option<Option<string>> {
    if bs == [0] then Some(None)
    else if bs == [] || bs[0] != 1 then None
    else
      var f := TakeSized(bs[1..], 2);
      if f.None? || f.value.1 != [] then None else Some(Some(f.value.0))
  }

  /** The reports and the finding of a target. */
  function DecodeIds(kind: TargetKind, systemId: string, bs: seq<byte>): Option<Target> {
    if bs == [] then None
    else
      var reports := TakeReports(bs[1..], FromBigEndian(bs[..1]));
      if reports.None? then None
      else
        var finding := DecodeFinding(reports.value.1);
        if finding.None? then None else Some(Target(kind, systemId, reports.value.0, finding.value))
  }

  function DecodeBody(body: seq<byte>): Option<Target> {
    if body == [] then None
    else
      var kind := TargetOfTag(body[0]);
      var system := TakeSized(body[1..], 4);
      if kind.None? || system.None? then None else DecodeIds(kind.value, system.value.0, system.value.1)
  }

  function DecodeTarget(bs: seq<byte>): Option<Target> {
    if TargetHeader() <= bs then DecodeBody(bs[|TargetHeader()|..]) else None
  }

  lemma {:induction false} ReportsRoundTrip(rs: seq<string>, rest: seq<byte>)
    requires forall r :: r in rs ==> Fits(r, 2)
    ensures TakeReports(EncodeReports(rs) + rest, |rs|) == Some((rs, rest))
  {
    hide TakeSized, Sized, Fits;
    if rs == [] {
      assert EncodeReports(rs) + rest == rest;
    } else {
      assert rs[0] in rs;
      var tail := EncodeReports(rs[1..]) + rest;
      assert EncodeReports(rs) + rest == Sized(rs[0], 2) + tail;
      SizedRoundTrip(rs[0], 2, tail);
      ReportsRoundTrip(rs[1..], rest);
      assert rs == [rs[0]] + rs[1..];
    }
  }

  lemma FindingRoundTrip(f: Option<string>)
    requires f.Some? ==> Fits(f.value, 2)
    ensures DecodeFinding(EncodeFinding(f)) == Some(f)
  {
    hide TakeSized, Sized, Fits;
    if f.Some? {
      SizedRoundTrip(f.value, 2, []);
      assert Sized(f.value, 2) + [] == Sized(f.value, 2);
      assert EncodeFinding(f)[1..] == Sized(f.value, 2);
    }
  }

  predicate TargetFitsIn(t: Target) {
    && Fits(t.systemId, 4) && |t.reportIds| < Power(1) && (forall r :: r in t.reportIds ==> Fits(r, 2))
    && (t.findingId.Some? ==> Fits(t.findingId.value, 2))
  }

  lemma IdsRoundTrip(t: Target, counted: seq<byte>)
    requires TargetFitsIn(t)
    requires counted == BigEndian(|t.reportIds|, 1) + (EncodeReports(t.reportIds) + EncodeFinding(t.findingId))
    ensures DecodeIds(t.kind, t.systemId, counted) == Some(t)
  {
    BigEndianInverts(|t.reportIds|, 1);
    hide Fits, EncodeReports, TakeReports, EncodeFinding, DecodeFinding, BigEndian, FromBigEndian, Power;
    var count := BigEndian(|t.reportIds|, 1);
    var reports := EncodeReports(t.reportIds) + EncodeFinding(t.findingId);
    assert counted[..1] == count && counted[1..] == reports;
    ReportsRoundTrip(t.reportIds, EncodeFinding(t.findingId));
    FindingRoundTrip(t.findingId);
  }

  lemma TagRoundTrip(k: TargetKind)
    ensures TargetOfTag(TargetTag(k)) == Some(k)
  {
  }

  lemma BodyRoundTrip(t: Target, body: seq<byte>)
    requires TargetFitsIn(t)
    requires body == [TargetTag(t.kind)]
      + (Sized(t.systemId, 4)
         + (BigEndian(|t.reportIds|, 1) + (EncodeReports(t.reportIds) + EncodeFinding(t.findingId))))
    ensures DecodeBody(body) == Some(t)
  {
    hide TakeSized, Sized, Fits, EncodeReports, EncodeFinding, BigEndian, Power, DecodeIds, TargetTag, TargetOfTag;
    var counted := BigEndian(|t.reportIds|, 1) + (EncodeReports(t.reportIds) + EncodeFinding(t.findingId));
    TagRoundTrip(t.kind);
    assert body[0] == TargetTag(t.kind) && body[1..] == Sized(t.systemId, 4) + counted;
    SizedRoundTrip(t.systemId, 4, counted);
    IdsRoundTrip(t, counted);
  }

  /** Decoding an encoded target returns it. */
  lemma TargetRoundTrip(t: Target)
    requires TargetFitsIn(t)
    ensures DecodeTarget(EncodeTarget(t)) == Some(t)
  {
    hide DecodeBody, TargetFitsIn, Sized, EncodeReports, EncodeFinding, BigEndian, TargetHeader;
    var body := [TargetTag(t.kind)]
      + (Sized(t.systemId, 4)
         + (BigEndian(|t.reportIds|, 1) + (EncodeReports(t.reportIds) + EncodeFinding(t.findingId))));
    BodyRoundTrip(t, body);
    assert EncodeTarget(t) == TargetHeader() + body;
  }

  lemma {:induction false} TakenAreReports(bs: seq<byte>, n: nat)
    requires TakeReports(bs, n).Some?
    ensures var (rs, rest) := TakeReports(bs, n).value;
      |rs| == n && (forall r :: r in rs ==> Fits(r, 2)) && bs == EncodeReports(rs) + rest
    decreases n
  {
    hide TakeSized, Sized, Fits;
    if n > 0 {
      TakenIsSized(bs, 2);
      var first := TakeSized(bs, 2).value;
      TakenAreReports(first.1, n - 1);
      var tail := TakeReports(first.1, n - 1).value;
      assert ([first.0] + tail.0)[1..] == tail.0;
    }
  }

  lemma DecodedFinding(bs: seq<byte>)
    requires DecodeFinding(bs).Some?
    ensures EncodeFinding(DecodeFinding(bs).value) == bs
    ensures DecodeFinding(bs).value.Some? ==> Fits(DecodeFinding(bs).value.value, 2)
  {
    hide TakeSized, Sized, Fits;
    if bs != [0] {
      TakenIsSized(bs[1..], 2);
      assert bs == [bs[0]] + bs[1..];
    }
  }

  lemma DecodedIds(kind: TargetKind, systemId: string, bs: seq<byte>)
    requires DecodeIds(kind, systemId, bs).Some? && Fits(systemId, 4)
    ensures var t := DecodeIds(kind, systemId, bs).value;
      && t.kind == kind && t.systemId == systemId && TargetFitsIn(t)
      && bs == BigEndian(|t.reportIds|, 1) + (EncodeReports(t.reportIds) + EncodeFinding(t.findingId))
  {
    FromBigEndianInverts(bs[..1]);
    hide Fits, EncodeReports, TakeReports, EncodeFinding, DecodeFinding, BigEndian, FromBigEndian, Power;
    var n := FromBigEndian(bs[..1]);
    TakenAreReports(bs[1..], n);
    DecodedFinding(TakeReports(bs[1..], n).value.1);
    assert bs == bs[..1] + bs[1..];
  }

  /** Accepted target bytes are encodings. */
  lemma TargetDecodesOnlyEncodings(bs: seq<byte>)
    requires DecodeTarget(bs).Some?
    ensures TargetFitsIn(DecodeTarget(bs).value) && EncodeTarget(DecodeTarget(bs).value) == bs
  {
    hide TakeSized, Sized, Fits, EncodeReports, EncodeFinding, BigEndian, Power, DecodeIds, TargetFitsIn, TargetHeader;
    var body := bs[|TargetHeader()|..];
    TakenIsSized(body[1..], 4);
    var system := TakeSized(body[1..], 4).value;
    DecodedIds(TargetOfTag(body[0]).value, system.0, system.1);
    assert body == [body[0]] + body[1..];
    assert bs == TargetHeader() + body;
  }

  /** The target decoder accepts exactly the encodings, and returns what was encoded. */
  lemma TargetsDecodeUniquely(bs: seq<byte>, t: Target)
    requires TargetFitsIn(t)
    ensures DecodeTarget(bs) == Some(t) <==> bs == EncodeTarget(t)
  {
    hide DecodeTarget, EncodeTarget, TargetFitsIn;
    TargetRoundTrip(t);
    if DecodeTarget(bs).Some? { TargetDecodesOnlyEncodings(bs); }
  }

  // ----- what the bindings promise

  /** Equal parameter bytes mean equal parameters. */
  lemma ParameterBytesInjective(ps: seq<Parameter>, qs: seq<Parameter>)
    requires forall p :: p in ps + qs ==> ValidParameter(p)
    requires EncodeParameters(ps) == EncodeParameters(qs)
    ensures ps == qs
  {
    forall p | p in ps ensures ParameterFitsIn(p) { assert p in ps + qs; ParameterFits(p); }
    forall p | p in qs ensures ParameterFitsIn(p) { assert p in ps + qs; ParameterFits(p); }
    hide EncodeParameters, ParameterFitsIn, DecodeParameters;
    ParametersDecodeUniquely(EncodeParameters(ps), ps);
    ParametersDecodeUniquely(EncodeParameters(qs), qs);
  }

  /** Equal target bytes mean equal targets. */
  lemma TargetBytesInjective(t: Target, u: Target)
    requires ValidTarget(t) && ValidTarget(u) && EncodeTarget(t) == EncodeTarget(u)
    ensures t == u
  {
    TargetFits(t);
    TargetFits(u);
    hide EncodeTarget, DecodeTarget, Fits, Power;
    TargetRoundTrip(t);
    TargetRoundTrip(u);
  }

  /** The two encodings never meet. */
  lemma EncodingsAreSeparate(ps: seq<Parameter>, t: Target)
    ensures EncodeParameters(ps) != EncodeTarget(t)
  {
    hide EncodeEach, EncodeReports, EncodeFinding, Sized, BigEndian;
    assert EncodeParameters(ps)[4] == 80;
    var rest := [TargetTag(t.kind)] + Sized(t.systemId, 4) + BigEndian(|t.reportIds|, 1)
      + EncodeReports(t.reportIds) + EncodeFinding(t.findingId);
    assert EncodeTarget(t) == TargetHeader() + rest;
    assert EncodeTarget(t)[4] == 84;
  }

  // ----- the encoders as they run

  ghost predicate KeysAscend(ps: seq<Parameter>) {
    forall i, j :: 0 <= i < j < |ps| ==> ps[i].key != ps[j].key && StrLe(ps[i].key, ps[j].key)
  }

  datatype EncodingError = TooManyParameters | NotUniquelyOrdered

  function KeysOf(ps: seq<Parameter>): seq<string> {
    if ps == [] then [] else [ps[0].key] + KeysOf(ps[1..])
  }

  lemma {:induction false} KeysAt(ps: seq<Parameter>)
    ensures |KeysOf(ps)| == |ps| && forall i :: 0 <= i < |ps| ==> KeysOf(ps)[i] == ps[i].key
  {
    if ps != [] { KeysAt(ps[1..]); }
  }

  /** Equal to their own sorting, and as many as their set has members. */
  predicate UniquelyOrdered(keys: seq<string>) {
    keys == Sort(keys, StrLe) && |set k | k in keys| == |keys|
  }

  lemma UniquelyOrderedMeans(ps: seq<Parameter>)
    ensures UniquelyOrdered(KeysOf(ps)) <==> KeysAscend(ps)
  {
    var keys := KeysOf(ps);
    KeysAt(ps);
    StrLeIsTotal();
    SortIsSorted(keys, StrLe);
    DistinctIffCounted(keys);
    assert Elems(keys) == set k | k in keys;
    hide StrLe, KeysOf, Preorder;
    if KeysAscend(ps) {
      assert Sorted(keys, StrLe) && Distinct(keys);
      SortedTextStays(keys);
    }
    hide Sort;
    if UniquelyOrdered(keys) {
      assert Sorted(keys, StrLe) && Distinct(keys);
      forall i, j | 0 <= i < j < |ps| ensures ps[i].key != ps[j].key && StrLe(ps[i].key, ps[j].key) {
        assert keys[i] != keys[j] && StrLe(keys[i], keys[j]);
      }
    }
  }

  lemma SortedTextStays(keys: seq<string>)
    requires Sorted(keys, StrLe)
    ensures Sort(keys, StrLe) == keys
  {
    StrLeIsTotal();
    assert forall x, y :: x in keys && y in keys ==> StrLe(x, y) || StrLe(y, x) by { hide StrLe; }
    assert forall x :: x in keys ==> StrLe(x, x) by { hide StrLe; }
    SortedStays(keys, StrLe);
  }

  lemma {:induction false} EncodeEachSnoc(ps: seq<Parameter>, p: Parameter)
    ensures EncodeEach(ps + [p]) == EncodeEach(ps) + EncodeParameter(p)
  {
    hide EncodeParameter;
    if ps == [] {
      assert [p][1..] == [] && EncodeEach([]) == [];
    } else {
      assert (ps + [p])[1..] == ps[1..] + [p];
      EncodeEachSnoc(ps[1..], p);
    }
  }

  lemma Associates(a: seq<byte>, b: seq<byte>, c: seq<byte>)
    ensures a + b + c == a + (b + c)
  {
  }

  method ExtendSized(encoded: seq<byte>, s: string, width: nat) returns (r: seq<byte>)
    ensures r == encoded + Sized(s, width)
  {
    hide EncodeUtf8, BigEndian;
    var textBytes := EncodeUtf8(s);
    r := encoded + BigEndian(|textBytes|, width);
    r := r + textBytes;
  }

  method ExtendParameter(encoded: seq<byte>, p: Parameter) returns (r: seq<byte>)
    ensures r == encoded + EncodeParameter(p)
  {
    hide Sized;
    r := ExtendSized(encoded, p.key, 2);
    r := r + [ParameterTag(p.kind)];
    r := ExtendSized(r, p.value, 4);
  }

  method ExtendEach(encoded: seq<byte>, ps: seq<Parameter>) returns (r: seq<byte>)
    ensures r == encoded + EncodeEach(ps)
  {
    assert EncodeEach([]) == [];
    hide EncodeEach, EncodeParameter;
    r := encoded;
    for i := 0 to |ps|
      invariant r == encoded + EncodeEach(ps[..i])
    {
      r := ExtendParameter(r, ps[i]);
      assert ps[..i + 1] == ps[..i] + [ps[i]];
      EncodeEachSnoc(ps[..i], ps[i]);
      Associates(encoded, EncodeEach(ps[..i]), EncodeParameter(ps[i]));
    }
    assert ps[..|ps|] == ps;
  }

  method CanonicalParameterBytes(parameters: seq<Parameter>) returns (r: Result<seq<byte>, EncodingError>)
    ensures r.Ok? <==> |parameters| <= MAX_PARAMETERS && KeysAscend(parameters)
    ensures r.Ok? ==> r.value == EncodeParameters(parameters)
  {
    if |parameters| > MAX_PARAMETERS { return Err(TooManyParameters); }
    UniquelyOrderedMeans(parameters);
    hide KeysOf, UniquelyOrdered, KeysAscend;
    if !UniquelyOrdered(KeysOf(parameters)) { return Err(NotUniquelyOrdered); }
    hide EncodeEach, ParameterHeader;
    var encoded := ExtendEach(ParameterHeader(), parameters);
    r := Ok(encoded);
  }

  lemma {:induction false} EncodeReportsSnoc(rs: seq<string>, r: string)
    ensures EncodeReports(rs + [r]) == EncodeReports(rs) + Sized(r, 2)
  {
    hide Sized;
    if rs == [] {
      assert [r][1..] == [] && EncodeReports([]) == [];
    } else {
      assert (rs + [r])[1..] == rs[1..] + [r];
      EncodeReportsSnoc(rs[1..], r);
    }
  }

  method ExtendReports(encoded: seq<byte>, rs: seq<string>) returns (r: seq<byte>)
    ensures r == encoded + EncodeReports(rs)
  {
    assert EncodeReports([]) == [];
    hide EncodeReports, Sized;
    r := encoded;
    for i := 0 to |rs|
      invariant r == encoded + EncodeReports(rs[..i])
    {
      r := ExtendSized(r, rs[i], 2);
      assert rs[..i + 1] == rs[..i] + [rs[i]];
      EncodeReportsSnoc(rs[..i], rs[i]);
      Associates(encoded, EncodeReports(rs[..i]), Sized(rs[i], 2));
    }
    assert rs[..|rs|] == rs;
  }

  method CanonicalTargetBytes(t: Target) returns (encoded: seq<byte>)
    ensures encoded == EncodeTarget(t)
  {
    hide EncodeReports, Sized, BigEndian, TargetHeader;
    encoded := TargetHeader() + [TargetTag(t.kind)];
    encoded := ExtendSized(encoded, t.systemId, 4);
    encoded := encoded + BigEndian(|t.reportIds|, 1);
    encoded := ExtendReports(encoded, t.reportIds);
    ghost var before := encoded;
    if t.findingId.None? {
      encoded := encoded + [0];
    } else {
      encoded := encoded + [1];
      encoded := ExtendSized(encoded, t.findingId.value, 2);
    }
    assert encoded == before + EncodeFinding(t.findingId);
  }
}
