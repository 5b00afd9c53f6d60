/** Decimal, hexadecimal and UUID text, with the readers that invert them. */
module Texts {

  // ---------------------------------------------------------------- decimal

  predicate IsDigit(c: char) {
    '0' <= c <= '9'
  }

  function DigitChar(d: nat): (c: char)
    requires d < 10
    ensures IsDigit(c)
  {
    "0123456789"[d]
  }

  function DigitValue(c: char): (d: nat)
    requires IsDigit(c)
    ensures d < 10 && DigitChar(d) == c
  {
    c as int - '0' as int
  }

  predicate AllDigits(s: string) {
    forall i | 0 <= i < |s| :: IsDigit(s[i])
  }

  function NatText(n: nat): (s: string)
    ensures s != "" && AllDigits(s)
  {
    if n < 10 then [DigitChar(n)] else NatText(n / 10) + [DigitChar(n % 10)]
  }

  function NatOf(s: string): nat
    requires AllDigits(s)
  {
    if s == "" then 0 else NatOf(s[..|s| - 1]) * 10 + DigitValue(s[|s| - 1])
  }

  lemma {:induction false} NatTextReads(n: nat)
    ensures NatOf(NatText(n)) == n
  {
    if n < 10 {
      assert NatOf(NatText(n)[..0]) == 0;
    } else {
      NatTextReads(n / 10);
      var s := NatText(n);
      assert s[..|s| - 1] == NatText(n / 10);
    }
  }

  function IntText(n: int): string {
    if n < 0 then "-" + NatText(-n) else NatText(n)
  }

  /** How many digits `s` starts with. */
  function DigitSpan(s: string): (k: nat)
    ensures k <= |s| && AllDigits(s[..k])
    ensures k < |s| ==> !IsDigit(s[k])
  {
    if s == "" || !IsDigit(s[0]) then 0 else 1 + DigitSpan(s[1..])
  }

  predicate Delimited(s: string) {
    s == "" || !IsDigit(s[0])
  }

  lemma {:induction false} DigitSpanOf(d: string, rest: string)
    requires AllDigits(d) && Delimited(rest)
    ensures DigitSpan(d + rest) == |d|
  {
    var s := d + rest;
    if d == "" {
    } else {
      assert s[1..] == d[1..] + rest;
      DigitSpanOf(d[1..], rest);
    }
  }

  // ---------------------------------------------------------------- hexadecimal

  predicate IsHexDigit(c: char) {
    '0' <= c <= '9' || 'a' <= c <= 'f' || 'A' <= c <= 'F'
  }

  predicate IsLowerHex(c: char) {
    '0' <= c <= '9' || 'a' <= c <= 'f'
  }

  function HexChar(d: nat): (c: char)
    requires d < 16
    ensures IsLowerHex(c)
  {
    "0123456789abcdef"[d]
  }

  function HexDigitValue(c: char): (d: nat)
    requires IsHexDigit(c)
    ensures d < 16
    ensures IsLowerHex(c) ==> HexChar(d) == c
  {
    if '0' <= c <= '9' then c as int - '0' as int
    else if 'a' <= c <= 'f' then c as int - 'a' as int + 10
    else c as int - 'A' as int + 10
  }

  lemma HexCharReads(d: nat)
    requires d < 16
    ensures HexDigitValue(HexChar(d)) == d
  {
  }

  predicate AllHex(s: string) {
    forall i | 0 <= i < |s| :: IsHexDigit(s[i])
  }

  predicate AllLowerHex(s: string) {
    forall i | 0 <= i < |s| :: IsLowerHex(s[i])
  }

  function Pow16(w: nat): (p: nat)
    ensures p > 0
  {
    if w == 0 then 1 else 16 * Pow16(w - 1)
  }

  /** The low `w` hexadecimal digits of `n`, in lower case. */
  function HexText(n: nat, w: nat): (s: string)
    ensures |s| == w && AllLowerHex(s)
  {
    if w == 0 then "" else HexText(n / 16, w - 1) + [HexChar(n % 16)]
  }

  function HexOf(s: string): nat
    requires AllHex(s)
  {
    if s == "" then 0 else HexOf(s[..|s| - 1]) * 16 + HexDigitValue(s[|s| - 1])
  }

  lemma {:induction false} HexTextReads(n: nat, w: nat)
    requires n < Pow16(w)
    ensures HexOf(HexText(n, w)) == n
  {
    if w > 0 {
      HexTextReads(n / 16, w - 1);
      HexCharReads(n % 16);
      var s := HexText(n, w);
      assert s[..w - 1] == HexText(n / 16, w - 1);
      assert s[w - 1] == HexChar(n % 16);
    }
  }

  lemma DigitsSplit(high: nat, low: nat)
    requires low < 16
    ensures (high * 16 + low) / 16 == high && (high * 16 + low) % 16 == low
  {
  }

  lemma {:induction false} HexOfPrints(s: string)
    requires AllHex(s)
    ensures HexOf(s) < Pow16(|s|)
    ensures AllLowerHex(s) ==> HexText(HexOf(s), |s|) == s
  {
    if s != "" {
      var front, d := s[..|s| - 1], HexDigitValue(s[|s| - 1]);
      HexOfPrints(front);
      var n := HexOf(front) * 16 + d;
      assert HexOf(s) == n;
      DigitsSplit(HexOf(front), d);
      assert s == front + [s[|s| - 1]];
    }
  }

  // ---------------------------------------------------------------- UUID

  const UUID_LIMIT: nat := 0x1_0000_0000_0000_0000_0000_0000_0000_0000

  type Uuid = n: nat | n < UUID_LIMIT

  lemma UuidLimitIsPow16()
    ensures Pow16(32) == UUID_LIMIT
  {
    assert Pow16(8) == 0x1_0000_0000;
    assert Pow16(16) == 0x1_0000_0000_0000_0000;
    assert Pow16(24) == 0x1_0000_0000_0000_0000_0000_0000;
  }

  function Dashed(h: string): (s: string)
    requires |h| == 32
    ensures |s| == 36
  {
    h[..8] + "-" + h[8..12] + "-" + h[12..16] + "-" + h[16..20] + "-" + h[20..]
  }

  function Undashed(s: string): (h: string)
    requires |s| == 36
    ensures |h| == 32
  {
    s[..8] + s[9..13] + s[14..18] + s[19..23] + s[24..]
  }

  lemma DashedUndashes(h: string)
    requires |h| == 32
    ensures Undashed(Dashed(h)) == h
  {
    var s := Dashed(h);
    assert s[..8] == h[..8] && s[9..13] == h[8..12] && s[14..18] == h[12..16]
      && s[19..23] == h[16..20] && s[24..] == h[20..];
    assert h == h[..8] + h[8..12] + h[12..16] + h[16..20] + h[20..];
  }

  /** str(uuid). */
  function UuidText(id: Uuid): string {
    Dashed(HexText(id, 32))
  }

  lemma UuidTextIsInjective(a: Uuid, b: Uuid)
    requires UuidText(a) == UuidText(b)
    ensures a == b
  {
    UuidLimitIsPow16();
    DashedUndashes(HexText(a, 32));
    DashedUndashes(HexText(b, 32));
    HexTextReads(a, 32);
    HexTextReads(b, 32);
  }

  // ---------------------------------------------------------------- case and blanks

  /** The blanks `str.strip` removes, within ASCII. */
  predicate IsBlank(c: char) {
    c == ' ' || '\t' <= c <= '\r' || '\U{1C}' <= c <= '\U{1F}'
  }

  function LStrip(s: string): (r: string)
    ensures r == "" || !IsBlank(r[0])
  {
    if s != "" && IsBlank(s[0]) then LStrip(s[1..]) else s
  }

  function RStrip(s: string): (r: string)
    ensures r == "" || (!IsBlank(r[|r| - 1]) && s != "" && r[0] == s[0])
  {
    if s != "" && IsBlank(s[|s| - 1]) then RStrip(s[..|s| - 1]) else s
  }

  function Strip(s: string): string {
    RStrip(LStrip(s))
  }

  /** No blank at either end. */
  predicate Trimmed(s: string) {
    s == "" || (!IsBlank(s[0]) && !IsBlank(s[|s| - 1]))
  }

  lemma StripTrims(s: string)
    ensures Trimmed(Strip(s))
    ensures Trimmed(s) ==> Strip(s) == s
  {
  }

  /** The blanks `String.trim()` of the firmware removes: those of isspace(). */
  predicate IsSpace(c: char) {
    c == ' ' || '\t' <= c <= '\r'
  }

  function TrimLeft(s: string): (r: string)
    ensures r == "" || !IsSpace(r[0])
  {
    if s != "" && IsSpace(s[0]) then TrimLeft(s[1..]) else s
  }

  function TrimRight(s: string): (r: string)
    ensures r == "" || (!IsSpace(r[|r| - 1]) && s != "" && r[0] == s[0])
  {
    if s != "" && IsSpace(s[|s| - 1]) then TrimRight(s[..|s| - 1]) else s
  }

  function Trim(s: string): (r: string)
    ensures r == "" || (!IsSpace(r[0]) && !IsSpace(r[|r| - 1]))
  {
    TrimRight(TrimLeft(s))
  }

  /** What Python would leave alone, the firmware leaves alone. */
  lemma TrimKeepsTrimmed(s: string)
    requires Trimmed(s)
    ensures Trim(s) == s
  {
  }

  function UpperChar(c: char): char {
    if 'a' <= c <= 'z' then (c as int - 32) as char else c
  }

  function LowerChar(c: char): char {
    if 'A' <= c <= 'Z' then (c as int + 32) as char else c
  }

  /** str.upper and str.lower, within ASCII. */
  function Upper(s: string): (r: string)
    ensures |r| == |s| && forall i | 0 <= i < |s| :: r[i] == UpperChar(s[i])
  {
    seq(|s|, i requires 0 <= i < |s| => UpperChar(s[i]))
  }

  function Lower(s: string): (r: string)
    ensures |r| == |s| && forall i | 0 <= i < |s| :: r[i] == LowerChar(s[i])
  {
    seq(|s|, i requires 0 <= i < |s| => LowerChar(s[i]))
  }

  /** Stripping takes blanks, and only blanks, off both ends. */
  lemma {:induction false} LStripTakesBlanks(s: string) returns (i: nat)
    ensures i <= |s| && LStrip(s) == s[i..] && forall k | 0 <= k < i :: s[k] in " \t\n\r" || IsBlank(s[k])
    ensures i < |s| ==> s[i] !in " \t\n\r"
  {
    if s == "" || !IsBlank(s[0]) {
      i := 0;
    } else {
      var rest := LStripTakesBlanks(s[1..]);
      i := rest + 1;
      assert s[1..][rest..] == s[i..];
    }
  }

  lemma {:induction false} RStripTakesBlanks(s: string) returns (j: nat)
    ensures j <= |s| && RStrip(s) == s[..j] && forall k | j <= k < |s| :: IsBlank(s[k])
    ensures j > 0 ==> s[j - 1] !in " \t\n\r"
  {
    if s == "" || !IsBlank(s[|s| - 1]) {
      j := |s|;
    } else {
      j := RStripTakesBlanks(s[..|s| - 1]);
      assert s[..|s| - 1][..j] == s[..j];
    }
  }

  lemma StripTakesBlanks(s: string) returns (i: nat, j: nat)
    ensures i <= j <= |s| && Strip(s) == s[i..j]
    ensures forall k | 0 <= k < i || j <= k < |s| :: IsBlank(s[k])
    ensures i < j ==> s[i] !in " \t\n\r" && s[j - 1] !in " \t\n\r"
  {
    i := LStripTakesBlanks(s);
    var n := RStripTakesBlanks(s[i..]);
    j := i + n;
    assert s[i..][..n] == s[i..j];
    forall k | j <= k < |s| ensures IsBlank(s[k]) {
      assert s[k] == s[i..][k - i];
    }
    forall k | 0 <= k < i ensures IsBlank(s[k]) {
    }
  }

  /** Folding, by example. */
  lemma FoldedExamples()
    ensures Upper("aZ_9") == "AZ_9" && Lower("Az_F") == "az_f"
  {
  }

  /** Numbers are written most significant digit first, negative ones after a minus sign. */
  lemma NumbersAreDecimal(n: nat)
    ensures n < 10 ==> NatText(n) == ["0123456789"[n]]
    ensures n >= 10 ==> NatText(n) == NatText(n / 10) + ["0123456789"[n % 10]]
    ensures n > 0 ==> IntText(0 - n) == "-" + NatText(n)
    ensures IntText(n) == NatText(n)
  {
  }

  function Clip(s: string, n: nat): (r: string)
    ensures |r| <= n
  {
    if |s| <= n then s else s[..n]
  }
}
