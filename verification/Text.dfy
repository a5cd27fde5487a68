/** Text keys: NUL-joined components, decimal numbers and digests. */
module Text {
  predicate NulFree(s: string) {
    '\0' !in s
  }

  ghost predicate AllNulFree(parts: seq<string>) {
    forall i :: 0 <= i < |parts| ==> NulFree(parts[i])
  }

  function NulJoin(parts: seq<string>): string {
    if parts == [] then ""
    else if |parts| == 1 then parts[0]
    else parts[0] + ['\0'] + NulJoin(parts[1..])
  }

  lemma SplitAtFirstNul(p: string, u: string, q: string, v: string)
    requires NulFree(p) && NulFree(q)
    requires p + ['\0'] + u == q + ['\0'] + v
    ensures p == q && u == v
  {
    var t := p + ['\0'] + u;
    assert t[|p|] == '\0' && t[|q|] == '\0';
    assert forall i :: 0 <= i < |p| ==> t[i] == p[i] != '\0';
    assert forall i :: 0 <= i < |q| ==> t[i] == q[i] != '\0';
    assert |p| == |q|;
    assert t[..|p|] == p && t[..|q|] == q;
    assert t[|p| + 1..] == u && t[|q| + 1..] == v;
  }

  lemma SplitAtLastNul(u: string, p: string, v: string, q: string)
    requires NulFree(p) && NulFree(q)
    requires u + ['\0'] + p == v + ['\0'] + q
    ensures p == q && u == v
  {
    var t := u + ['\0'] + p;
    assert t[|u|] == '\0' && t[|v|] == '\0';
    assert forall i :: |u| < i < |t| ==> t[i] == p[i - |u| - 1] != '\0';
    assert forall i :: |v| < i < |t| ==> t[i] == q[i - |v| - 1] != '\0';
    assert |u| == |v|;
    assert t[..|u|] == u && t[..|v|] == v;
    assert t[|u| + 1..] == p && t[|v| + 1..] == q;
  }

  /** Where components hold no NUL, the joined text determines them all. */
  lemma {:induction false} NulJoinInjective(a: seq<string>, b: seq<string>)
    requires a != [] && b != [] && AllNulFree(a) && AllNulFree(b)
    requires NulJoin(a) == NulJoin(b)
    ensures a == b
  {
    if |a| > 1 { assert NulJoin(a)[|a[0]|] == '\0'; }
    if |b| > 1 { assert NulJoin(b)[|b[0]|] == '\0'; }
    if |a| > 1 {
      SplitAtFirstNul(a[0], NulJoin(a[1..]), b[0], NulJoin(b[1..]));
      NulJoinInjective(a[1..], b[1..]);
      assert a == [a[0]] + a[1..] && b == [b[0]] + b[1..];
    }
  }

  function Digit(d: nat): char
    requires d < 10
  {
    "0123456789"[d]
  }

  function Decimal(n: nat): string {
    if n < 10 then [Digit(n)] else Decimal(n / 10) + [Digit(n % 10)]
  }

  lemma DecimalLast(n: nat)
    ensures Decimal(n) != [] && Decimal(n)[|Decimal(n)| - 1] == Digit(n % 10)
    ensures Decimal(n)[..|Decimal(n)| - 1] == if n < 10 then [] else Decimal(n / 10)
  {
  }

  lemma {:induction false} DecimalInjective(m: nat, n: nat)
    requires Decimal(m) == Decimal(n)
    ensures m == n
  {
    DecimalLast(m);
    DecimalLast(n);
    DecimalNonEmpty(m / 10);
    DecimalNonEmpty(n / 10);
    hide Decimal;
    if m >= 10 && n >= 10 {
      DecimalInjective(m / 10, n / 10);
    }
  }

  lemma {:induction false} DecimalNonEmpty(n: nat)
    ensures |Decimal(n)| > 0 && NulFree(Decimal(n))
  {
    if n >= 10 { DecimalNonEmpty(n / 10); }
  }

  /** The number a text of digits stands for, first digit most significant. */
  function Read(s: string): int {
    if s == "" then 0 else Read(s[..|s| - 1]) * 10 + (s[|s| - 1] as int - 48)
  }

  /** Decimal digits only, no leading zero, and the right number. */
  lemma {:induction false} DecimalIs(n: nat)
    ensures Read(Decimal(n)) == n
    ensures forall i :: 0 <= i < |Decimal(n)| ==> '0' <= Decimal(n)[i] <= '9'
    ensures n == 0 || (Decimal(n) != [] && Decimal(n)[0] != '0')
  {
    DecimalLast(n);
    DigitIs(n % 10);
    var s := Decimal(n);
    assert s == s[..|s| - 1] + [s[|s| - 1]];
    if n >= 10 {
      DecimalIs(n / 10);
      DecimalNonEmpty(n / 10);
    }
    hide Decimal, Digit;
  }

  lemma DigitIs(d: nat)
    requires d < 10
    ensures Digit(d) as int == 48 + d
  {
  }

  predicate IsControl(c: char) {
    (c as int) < 0x20 || 0x7f <= (c as int) <= 0x9f
  }

  predicate IsHexDigest(s: string) {
    |s| == 64 && forall i :: 0 <= i < 64 ==> '0' <= s[i] <= '9' || 'a' <= s[i] <= 'f'
  }

  /**
   * What the program borrows from its runtime: Unicode case folding, SHA-256 (as
   * lower-case hexadecimal text) and two Unicode character classes, white space
   * and format characters (general category Cf).
   */
  datatype TextServices = TextServices(
    casefold: string -> string,
    sha256: string -> string,
    isSpace: char -> bool,
    isFormat: char -> bool)
  {
    /** Digests are hexadecimal, folding adds no NUL, and visible ASCII is plain. */
    ghost predicate Valid() {
      && (forall s :: IsHexDigest(sha256(s)))
      && (forall s :: NulFree(s) ==> NulFree(casefold(s)))
      && (forall c :: '!' <= c <= '~' ==> !isSpace(c) && !isFormat(c))
    }

    /** No two of these texts share a digest. */
    ghost predicate CollisionFree(inputs: set<string>) {
      forall a, b :: a in inputs && b in inputs && sha256(a) == sha256(b) ==> a == b
    }

    function Strip(s: string): string {
      if s == "" then ""
      else if isSpace(s[0]) then Strip(s[1..])
      else if isSpace(s[|s| - 1]) then Strip(s[..|s| - 1])
      else s
    }

    /** Stripping removes white space at both ends, and nothing else. */
    lemma {:induction false} StripMeans(s: string) returns (i: nat, j: nat)
      ensures i <= j <= |s| && Strip(s) == s[i..j]
      ensures forall k :: 0 <= k < i || j <= k < |s| ==> isSpace(s[k])
      ensures i < j ==> !isSpace(s[i]) && !isSpace(s[j - 1])
      decreases |s|
    {
      if s == "" {
        i, j := 0, 0;
      } else if isSpace(s[0]) {
        i, j := StripMeans(s[1..]);
        assert s[1..][i..j] == s[i + 1..j + 1];
        i, j := i + 1, j + 1;
      } else if isSpace(s[|s| - 1]) {
        i, j := StripMeans(s[..|s| - 1]);
        assert s[..|s| - 1][i..j] == s[i..j];
      } else {
        i, j := 0, |s|;
        assert s[0..|s|] == s;
      }
    }

    lemma {:induction false} StripIsStable(s: string)
      ensures Strip(Strip(s)) == Strip(s)
      decreases |s|
    {
      if s != "" {
        if isSpace(s[0]) { StripIsStable(s[1..]); }
        else if isSpace(s[|s| - 1]) { StripIsStable(s[..|s| - 1]); }
      }
    }

    /** The text rule of the scoring contracts, for values already stripped. */
    predicate BoundedText(s: string, maximum: nat) {
      0 < |s| <= maximum && Strip(s) == s && forall c :: c in s ==> !IsControl(c)
    }

    function OpaqueId(prefix: string, components: seq<string>): string {
      prefix + ":" + sha256(NulJoin(components))
    }

    lemma OpaqueIdDeterminesText(inputs: set<string>, prefix: string, a: seq<string>, b: seq<string>)
      requires CollisionFree(inputs) && NulJoin(a) in inputs && NulJoin(b) in inputs
      requires OpaqueId(prefix, a) == OpaqueId(prefix, b)
      ensures NulJoin(a) == NulJoin(b)
    {
      var u, v := NulJoin(a), NulJoin(b);
      var x, y := OpaqueId(prefix, a), OpaqueId(prefix, b);
      assert x[|prefix| + 1..] == sha256(u) && y[|prefix| + 1..] == sha256(v);
      assert u in inputs && v in inputs && sha256(u) == sha256(v);
    }

    lemma OpaqueIdInjective(inputs: set<string>, prefix: string, a: seq<string>, b: seq<string>)
      requires CollisionFree(inputs) && NulJoin(a) in inputs && NulJoin(b) in inputs
      requires a != [] && b != [] && AllNulFree(a) && AllNulFree(b)
      requires OpaqueId(prefix, a) == OpaqueId(prefix, b)
      ensures a == b
    {
      OpaqueIdDeterminesText(inputs, prefix, a, b);
      NulJoinInjective(a, b);
    }

    lemma BoundedTextIsNulFree(s: string, maximum: nat)
      requires BoundedText(s, maximum)
      ensures NulFree(s)
    {
      assert IsControl('\0');
    }
  }
}
