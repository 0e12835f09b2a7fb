/** Character-level helpers shared by the readers and exporters: decimal and
    hexadecimal rendering of counters, prefix and substring tests, ASCII case
    folding. */
module Text {
  import opened Wrappers

  predicate IsDigit(c: char) {
    '0' <= c <= '9'
  }

  predicate IsHexDigit(c: char) {
    '0' <= c <= '9' || 'A' <= c <= 'F'
  }

  function DigitChar(d: nat): (c: char)
    requires d < 16
    ensures d < 10 ==> IsDigit(c)
    ensures IsHexDigit(c)
  {
    "0123456789ABCDEF"[d]
  }

  function HexDigitValue(c: char): (d: nat)
    requires IsHexDigit(c)
    ensures d < 16
  {
    if '0' <= c <= '9' then c as int - '0' as int else c as int - 'A' as int + 10
  }

  /** Invariant-culture decimal rendering of a non-negative counter, as C#
      string interpolation prints a `ushort`, `uint` or `int` that is >= 0. */
  function Decimal(n: nat): (s: string)
    ensures |s| >= 1
    ensures forall i :: 0 <= i < |s| ==> IsDigit(s[i])
    ensures |s| > 1 ==> s[0] != '0'
    decreases n
  {
    if n < 10 then [DigitChar(n)] else Decimal(n / 10) + [DigitChar(n % 10)]
  }

  function DecimalValue(s: string): nat
    requires forall i :: 0 <= i < |s| ==> IsDigit(s[i])
    decreases |s|
  {
    if |s| == 0 then 0
    else
      assert IsDigit(s[|s| - 1]);
      DecimalValue(s[..|s| - 1]) * 10 + (s[|s| - 1] as int - '0' as int)
  }

  /** Reading the rendered digits back gives the number: the rendering loses nothing. */
  lemma {:induction false} DecimalRoundTrip(n: nat)
    ensures DecimalValue(Decimal(n)) == n
    decreases n
  {
    if n >= 10 {
      var s := Decimal(n);
      assert s[..|s| - 1] == Decimal(n / 10);
      DecimalRoundTrip(n / 10);
    }
  }

  /** Two counters render the same exactly when they are equal. */
  lemma DecimalInjective(m: nat, n: nat)
    ensures Decimal(m) == Decimal(n) <==> m == n
  {
    if Decimal(m) == Decimal(n) {
      DecimalRoundTrip(m);
      DecimalRoundTrip(n);
    }
  }

  /** Upper-case hexadecimal digits of `n` without leading zeros ("0" for zero). */
  function HexDigits(n: nat): (s: string)
    ensures |s| >= 1
    ensures forall i :: 0 <= i < |s| ==> IsHexDigit(s[i])
    ensures s[0] == '0' <==> n == 0
    ensures n == 0 ==> |s| == 1
    decreases n
  {
    if n < 16 then [DigitChar(n)] else HexDigits(n / 16) + [DigitChar(n % 16)]
  }

  /** .NET's "X<width>" format: upper-case hexadecimal, left-padded with zeros
      to at least `width` digits. */
  function Hex(n: nat, width: nat): (s: string)
    ensures |s| == Max(width, |HexDigits(n)|)
    ensures forall i :: 0 <= i < |s| ==> IsHexDigit(s[i])
  {
    var d := HexDigits(n);
    if |d| >= width then d else seq(width - |d|, _ => '0') + d
  }

  function HexValue(s: string): nat
    requires forall i :: 0 <= i < |s| ==> IsHexDigit(s[i])
    decreases |s|
  {
    if |s| == 0 then 0 else HexValue(s[..|s| - 1]) * 16 + HexDigitValue(s[|s| - 1])
  }

  lemma {:induction false} HexDigitsRoundTrip(n: nat)
    ensures HexValue(HexDigits(n)) == n
    decreases n
  {
    if n >= 16 {
      var s := HexDigits(n);
      assert s[..|s| - 1] == HexDigits(n / 16);
      HexDigitsRoundTrip(n / 16);
    }
  }

  lemma {:induction false} HexLeadingZeros(k: nat, s: string)
    requires forall i :: 0 <= i < |s| ==> IsHexDigit(s[i])
    ensures HexValue(seq(k, _ => '0') + s) == HexValue(s)
    decreases |s|
  {
    var t := seq(k, _ => '0') + s;
    if |s| == 0 {
      assert t == seq(k, _ => '0');
      ZerosValue(k);
    } else {
      assert t[..|t| - 1] == seq(k, _ => '0') + s[..|s| - 1];
      HexLeadingZeros(k, s[..|s| - 1]);
    }
  }

  lemma {:induction false} ZerosValue(k: nat)
    ensures HexValue(seq(k, _ => '0')) == 0
    decreases k
  {
    if k > 0 {
      assert seq(k, _ => '0')[..k - 1] == seq(k - 1, _ => '0');
      ZerosValue(k - 1);
    }
  }

  /** The padded hexadecimal rendering reads back as the number it renders. */
  lemma HexRoundTrip(n: nat, width: nat)
    ensures HexValue(Hex(n, width)) == n
  {
    HexDigitsRoundTrip(n);
    var d := HexDigits(n);
    if |d| < width {
      HexLeadingZeros(width - |d|, d);
    }
  }

  /** `t` is a decimal numeral for `n` as `Decimal` writes one: digits only,
      no superfluous leading zero. */
  predicate Numeral(t: string, n: nat) {
    && |t| >= 1
    && (forall i :: 0 <= i < |t| ==> IsDigit(t[i]))
    && (|t| > 1 ==> t[0] != '0')
    && DecimalValue(t) == n
  }

  /** `s` is a numeral for `a`, one dot, and a numeral for `b`. */
  predicate DottedPair(s: string, a: nat, b: nat) {
    exists k :: 0 < k < |s| && s[k] == '.' && Numeral(s[..k], a) && Numeral(s[k + 1..], b)
  }

  lemma DecimalIsNumeral(n: nat)
    ensures Numeral(Decimal(n), n)
  {
    DecimalRoundTrip(n);
  }

  /** Two decimal renderings joined by a dot form the dotted pair of the two numbers. */
  lemma DottedDecimals(a: nat, b: nat)
    ensures DottedPair(Decimal(a) + "." + Decimal(b), a, b)
  {
    var s := Decimal(a) + "." + Decimal(b);
    var k := |Decimal(a)|;
    assert s[..k] == Decimal(a) && s[k + 1..] == Decimal(b) && s[k] == '.';
    DecimalIsNumeral(a);
    DecimalIsNumeral(b);
  }

  /** A dotted pair names its two numbers: numerals hold no dot, so the dot
      is found in one place only. */
  lemma DottedPairUnique(s: string, a: nat, b: nat, c: nat, d: nat)
    requires DottedPair(s, a, b) && DottedPair(s, c, d)
    ensures a == c && b == d
  {
    var k1 :| 0 < k1 < |s| && s[k1] == '.' && Numeral(s[..k1], a) && Numeral(s[k1 + 1..], b);
    var k2 :| 0 < k2 < |s| && s[k2] == '.' && Numeral(s[..k2], c) && Numeral(s[k2 + 1..], d);
    assert k1 == k2;
  }

  predicate StartsWith(s: string, prefix: string) {
    |prefix| <= |s| && s[..|prefix|] == prefix
  }

  /** Ordinal `string.Contains`: `sub` occurs somewhere in `s`. */
  predicate Contains(s: string, sub: string) {
    exists i :: 0 <= i <= |s| - |sub| && OccursAt(s, sub, i)
  }

  predicate OccursAt(s: string, sub: string, i: int) {
    0 <= i <= |s| - |sub| && s[i..i + |sub|] == sub
  }

  /** `string.Replace` of a one-character string by another one-character string. */
  function ReplaceChar(s: string, from: char, to: char): (r: string)
    ensures |r| == |s|
    ensures forall i :: 0 <= i < |s| ==> r[i] == (if s[i] == from then to else s[i])
  {
    seq(|s|, i requires 0 <= i < |s| => if s[i] == from then to else s[i])
  }

  function LowerChar(c: char): char {
    if 'A' <= c <= 'Z' then (c as int + 32) as char else c
  }

  /** ASCII lower-casing, the model of `ToLower` and of ordinal case-insensitive keys. */
  function Lower(s: string): (r: string)
    ensures |r| == |s|
    ensures forall i :: 0 <= i < |s| ==> r[i] == LowerChar(s[i])
  {
    seq(|s|, i requires 0 <= i < |s| => LowerChar(s[i]))
  }
}
