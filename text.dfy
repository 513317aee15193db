/**
 * Character and string helpers shared by the model: ASCII digits, case
 * mapping, stripping, character replacement, and decimal rendering of
 * natural numbers (the `str(n)` and `f"{n:0Wd}"` formatting of the source).
 */
module Text {

  predicate IsDigit(c: char) { '0' <= c <= '9' }

  /** Every character is an ASCII decimal digit (`str.isdigit` on ASCII). */
  predicate AllDigits(s: string) { forall i | 0 <= i < |s| :: IsDigit(s[i]) }

  /** Python's `str.isspace` on the ASCII range. */
  predicate IsSpace(c: char)
  {
    c == ' ' || c == '\t' || c == '\n' || c == '\r' || c == '\U{0B}' || c == '\U{0C}'
    || c == '\U{1C}' || c == '\U{1D}' || c == '\U{1E}' || c == '\U{1F}'
  }

  function LowerChar(c: char): (r: char)
    ensures !('A' <= r <= 'Z')
    ensures !('A' <= c <= 'Z') ==> r == c
    ensures r == '.' <==> c == '.'
  {
    if 'A' <= c <= 'Z' then (c as int + 32) as char else c
  }

  function UpperChar(c: char): char
  {
    if 'a' <= c <= 'z' then (c as int - 32) as char else c
  }

  function Lower(s: string): (r: string)
    ensures |r| == |s|
    ensures forall i | 0 <= i < |s| :: r[i] == LowerChar(s[i])
  {
    seq(|s|, i requires 0 <= i < |s| => LowerChar(s[i]))
  }

  function Upper(s: string): (r: string)
    ensures |r| == |s|
    ensures forall i | 0 <= i < |s| :: r[i] == UpperChar(s[i])
  {
    seq(|s|, i requires 0 <= i < |s| => UpperChar(s[i]))
  }

  predicate StartsWith(s: string, prefix: string)
  {
    |prefix| <= |s| && s[..|prefix|] == prefix
  }

  predicate EndsWith(s: string, suffix: string)
  {
    |suffix| <= |s| && s[|s| - |suffix|..] == suffix
  }

  /** `s.lstrip(c)`: drop every leading occurrence of `c`. */
  function LStrip(s: string, c: char): (r: string)
    ensures |r| <= |s| && r == s[|s| - |r|..]
    ensures r == [] || r[0] != c
    ensures forall i | 0 <= i < |s| - |r| :: s[i] == c
  {
    if s != [] && s[0] == c then LStrip(s[1..], c) else s
  }

  /** `s.rstrip(c)`: drop every trailing occurrence of `c`. */
  function RStrip(s: string, c: char): (r: string)
    ensures |r| <= |s| && r == s[..|r|]
    ensures r == [] || r[|r| - 1] != c
    ensures forall i | |r| <= i < |s| :: s[i] == c
  {
    if s != [] && s[|s| - 1] == c then RStrip(s[..|s| - 1], c) else s
  }

  /** `s.strip()`: drop leading and trailing whitespace. */
  function StripSpaces(s: string): (r: string)
    ensures r == [] || (!IsSpace(r[0]) && !IsSpace(r[|r| - 1]))
    decreases |s|
  {
    if s == [] then []
    else if IsSpace(s[0]) then StripSpaces(s[1..])
    else if IsSpace(s[|s| - 1]) then StripSpaces(s[..|s| - 1])
    else s
  }

  /** `s.replace(old, new)` for a one-character `old`. */
  function ReplaceChar(s: string, from: char, to: string): (r: string)
    ensures from !in to ==> from !in r
    ensures forall c :: c in r ==> c in to || (c in s && c != from)
  {
    if s == [] then []
    else (if s[0] == from then to else [s[0]]) + ReplaceChar(s[1..], from, to)
  }

  function DigitChar(d: nat): (c: char)
    requires d < 10
    ensures IsDigit(c)
  {
    ('0' as int + d) as char
  }

  function DigitValue(c: char): nat
    requires IsDigit(c)
  {
    c as int - '0' as int
  }

  /** `str(n)`: the shortest decimal rendering of `n`. */
  function Decimal(n: nat): (r: string)
    ensures |r| >= 1 && AllDigits(r)
    ensures n >= 10 ==> r[0] != '0'
  {
    if n < 10 then [DigitChar(n)] else Decimal(n / 10) + [DigitChar(n % 10)]
  }

  /** The value of a string of decimal digits, leading zeros allowed (`int(s)`). */
  function DecimalValue(s: string): nat
    requires AllDigits(s)
  {
    if s == [] then 0 else DecimalValue(s[..|s| - 1]) * 10 + DigitValue(s[|s| - 1])
  }

  function Zeros(k: nat): (r: string)
    ensures |r| == k && AllDigits(r)
  {
    if k == 0 then [] else Zeros(k - 1) + ['0']
  }

  /** `f"{n:0{width}d}"`: decimal, left-padded with zeros to `width` characters. */
  function ZeroPad(n: nat, width: nat): (r: string)
    ensures AllDigits(r)
    ensures |r| == if |Decimal(n)| < width then width else |Decimal(n)|
  {
    (if |Decimal(n)| < width then Zeros(width - |Decimal(n)|) else []) + Decimal(n)
  }

  lemma {:induction false} DecimalValueOfDecimal(n: nat)
    ensures DecimalValue(Decimal(n)) == n
  {
    if n >= 10 {
      var s := Decimal(n);
      assert s[..|s| - 1] == Decimal(n / 10);
      DecimalValueOfDecimal(n / 10);
    }
  }

  lemma {:induction false} DecimalValueLeadingZeros(z: string, s: string)
    requires AllDigits(s) && AllDigits(z) && forall i | 0 <= i < |z| :: z[i] == '0'
    ensures AllDigits(z + s) && DecimalValue(z + s) == DecimalValue(s)
    decreases |s|
  {
    if s == [] {
      assert z + s == z;
      LeadingZerosOnly(z);
    } else {
      var t := z + s;
      assert t[..|t| - 1] == z + s[..|s| - 1];
      DecimalValueLeadingZeros(z, s[..|s| - 1]);
    }
  }

  lemma {:induction false} LeadingZerosOnly(z: string)
    requires AllDigits(z) && forall i | 0 <= i < |z| :: z[i] == '0'
    ensures DecimalValue(z) == 0
  {
    if z != [] {
      LeadingZerosOnly(z[..|z| - 1]);
    }
  }

  /** Zero padding does not change the value the digits denote. */
  lemma {:induction false} ZeroPadValue(n: nat, width: nat)
    ensures DecimalValue(ZeroPad(n, width)) == n
  {
    var z := if |Decimal(n)| < width then Zeros(width - |Decimal(n)|) else [];
    ZerosAreZero(width);
    DecimalValueLeadingZeros(z, Decimal(n));
    DecimalValueOfDecimal(n);
  }

  lemma {:induction false} ZerosAreZero(k: nat)
    ensures forall j :: 0 <= j <= k ==> forall i | 0 <= i < |Zeros(j)| :: Zeros(j)[i] == '0'
  {
    if k > 0 {
      ZerosAreZero(k - 1);
      var z := Zeros(k);
      assert z == Zeros(k - 1) + ['0'];
    }
  }

  /** Distinct numbers render to distinct decimal strings. */
  lemma {:induction false} DecimalInjective(m: nat, n: nat)
    requires Decimal(m) == Decimal(n)
    ensures m == n
  {
    DecimalValueOfDecimal(m);
    DecimalValueOfDecimal(n);
  }

  /** Distinct numbers render to distinct zero-padded strings. */
  lemma {:induction false} ZeroPadInjective(m: nat, n: nat, width: nat)
    requires ZeroPad(m, width) == ZeroPad(n, width)
    ensures m == n
  {
    ZeroPadValue(m, width);
    ZeroPadValue(n, width);
  }

  /** A number below 10^k renders in at most k digits. */
  lemma {:induction false} DecimalLength(n: nat, k: nat)
    requires 1 <= k && n < Pow10(k)
    ensures |Decimal(n)| <= k
  {
    if n >= 10 {
      assert k != 1;
      assert n / 10 < Pow10(k - 1);
      DecimalLength(n / 10, k - 1);
    }
  }

  function Pow10(k: nat): (r: nat)
    ensures r >= 1
  {
    if k == 0 then 1 else 10 * Pow10(k - 1)
  }
}
