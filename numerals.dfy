/** Decimal text <-> numbers: Python's float() on plain decimal literals,
    fixed-point formatting ("{x:.4f}"), integer formatting, and the prefix
    conversions of C++'s std::stoull / std::stoul / std::stoi / std::stod. */
module Numerals {
  import opened Wrappers
  import opened Text

  predicate IsDigit(c: char) { '0' <= c <= '9' }

  predicate AllDigits(s: string) {
    forall i :: 0 <= i < |s| ==> IsDigit(s[i])
  }

  function DigitValue(c: char): nat
    requires IsDigit(c)
  {
    c as int - '0' as int
  }

  function DigitChar(d: nat): (c: char)
    requires d < 10
    ensures IsDigit(c) && DigitValue(c) == d
  {
    ('0' as int + d) as char
  }

  /** The value of a string of decimal digits (0 for the empty string). */
  function DigitsValue(s: string): nat
    requires AllDigits(s)
  {
    if |s| == 0 then 0 else DigitsValue(s[..|s| - 1]) * 10 + DigitValue(s[|s| - 1])
  }

  function Pow10(d: nat): (p: nat)
    ensures p >= 1
  {
    if d == 0 then 1 else 10 * Pow10(d - 1)
  }

  /** Decimal rendering of a natural number, as Python's str() and C++'s
      std::to_string print it. */
  function NatToString(n: nat): (s: string)
    ensures |s| >= 1 && AllDigits(s)
  {
    if n < 10 then [DigitChar(n)] else NatToString(n / 10) + [DigitChar(n % 10)]
  }

  lemma {:induction false} NatToStringValue(n: nat)
    ensures DigitsValue(NatToString(n)) == n
  {
    if n >= 10 {
      var s := NatToString(n);
      NatToStringValue(n / 10);
      assert s[..|s| - 1] == NatToString(n / 10);
    }
  }

  /** `s` preceded by enough zeros to be `width` characters long. */
  function PadZeros(s: string, width: nat): (r: string)
    requires AllDigits(s)
    ensures AllDigits(r) && |r| == if |s| >= width then |s| else width
    decreases width
  {
    if |s| >= width then s else "0" + PadZeros(s, width - 1)
  }

  lemma {:induction false} LeadingZeroValue(s: string)
    requires AllDigits(s)
    ensures AllDigits("0" + s) && DigitsValue("0" + s) == DigitsValue(s)
    decreases |s|
  {
    var t := "0" + s;
    if |s| > 0 {
      assert t[..|t| - 1] == "0" + s[..|s| - 1];
      LeadingZeroValue(s[..|s| - 1]);
    }
  }

  lemma {:induction false} PadZerosValue(s: string, width: nat)
    requires AllDigits(s)
    ensures DigitsValue(PadZeros(s, width)) == DigitsValue(s)
    decreases width
  {
    if |s| < width {
      PadZerosValue(s, width - 1);
      LeadingZeroValue(PadZeros(s, width - 1));
    }
  }

  // ---------------------------------------------------------------
  // Python float() on decimal literals

  /** Sign and body of a literal: a leading '+' or '-' is taken off. */
  function SignSplit(t: string): (bool, string)
  {
    if |t| > 0 && (t[0] == '-' || t[0] == '+') then (t[0] == '-', t[1..]) else (false, t)
  }

  /** n / 10^k as an exact rational. */
  function Shift(n: nat, k: nat): real
  {
    n as real / Pow10(k) as real
  }

  /** The value written `ip.fp` (either part may be empty). */
  function FixedValue(ip: string, fp: string): real
    requires AllDigits(ip) && AllDigits(fp)
  {
    DigitsValue(ip) as real + Shift(DigitsValue(fp), |fp|)
  }

  /** Python's float(s) for the literals [sign] digits [. digits] (at least
      one digit), with surrounding whitespace allowed; None where Python
      raises ValueError. Exponents, "inf", "nan" and digit separators are not
      part of this model. */
  function ParseDecimal(s: string): Option<real>
  {
    var sb := SignSplit(Strip(s));
    match ParseUnsigned(sb.1)
    case None => None
    case Some(v) => Some(Negated(sb.0, v))
  }

  function Negated(neg: bool, v: real): real
  {
    if neg then -v else v
  }

  /** digits [. digits] with at least one digit, no sign. */
  function ParseUnsigned(body: string): Option<real>
  {
    var k := FindChar(body, '.');
    var ip := body[..k];
    var fp := if k < |body| then body[k + 1..] else [];
    if AllDigits(ip) && AllDigits(fp) && |ip| + |fp| >= 1 then Some(FixedValue(ip, fp)) else None
  }

  /** x rounded to d decimals, halves away from zero; the number
      "{x:.<d>f}" prints. */
  function ScaledMagnitude(x: real, d: nat): nat
  {
    var a := if x < 0.0 then -x else x;
    (a * Pow10(d) as real + 0.5).Floor
  }

  function Rounded(x: real, d: nat): real
  {
    Negated(x < 0.0, Shift(ScaledMagnitude(x, d), d))
  }

  /** Python's "{x:.<d>f}": sign, integer digits, and for d > 0 a point and
      exactly d fraction digits. */
  function FormatFixed(x: real, d: nat): (s: string)
  {
    Signed(x < 0.0, FixedBody(ScaledMagnitude(x, d), d))
  }

  function Signed(neg: bool, body: string): string
  {
    if neg then ['-'] + body else body
  }

  /** The digits of m / 10^d, and for d > 0 a point and the d digits of
      m % 10^d. */
  function FixedBody(m: nat, d: nat): string
  {
    var ip := NatToString(IntegerPart(m, d));
    if d == 0 then ip else ip + ['.'] + FractionDigits(m, d)
  }

  function IntegerPart(m: nat, d: nat): nat
  {
    Quotient(m, Pow10(d))
  }

  function Quotient(m: nat, p: nat): nat
    requires p >= 1
  {
    m / p
  }

  function FractionPart(m: nat, d: nat): nat
  {
    m % Pow10(d)
  }

  function FractionDigits(m: nat, d: nat): string
  {
    PadZeros(NatToString(FractionPart(m, d)), d)
  }

  lemma SplitScaled(m: nat, d: nat)
    ensures IntegerPart(m, d) as real + Shift(FractionPart(m, d), d) == Shift(m, d)
    ensures FractionPart(m, d) < Pow10(d)
  {
    var p := Pow10(d);
    var q, r := m / p, m % p;
    assert m == q * p + r;
    assert (q * p + r) as real == q as real * p as real + r as real;
  }

  /** What the number formatters print: a sign or digit first, a digit
      last, and only signs, points and digits. */
  predicate NumeralText(s: string) {
    |s| > 0 && (s[0] == '-' || IsDigit(s[0])) && IsDigit(s[|s| - 1]) &&
    forall i :: 0 <= i < |s| ==> s[i] == '-' || s[i] == '.' || IsDigit(s[i])
  }

  /** A numeral has no whitespace, so it is one field of a split(). */
  lemma NumeralIsWord(s: string)
    requires NumeralText(s)
    ensures IsWord(s) && !IsPySpace(s[0]) && !IsPySpace(s[|s| - 1])
  {
  }

  lemma FormatFixedNumeral(x: real, d: nat)
    ensures NumeralText(FormatFixed(x, d))
  {
    var m := ScaledMagnitude(x, d);
    FixedBodyChars(m, d);
    var body := FixedBody(m, d);
    var s := Signed(x < 0.0, body);
    assert s[|s| - 1] == body[|body| - 1];
    forall i | 0 <= i < |s| ensures s[i] == '-' || s[i] == '.' || IsDigit(s[i]) {
      if x < 0.0 && i > 0 { assert s[i] == body[i - 1]; }
    }
  }

  lemma NatToStringNumeral(n: nat)
    ensures NumeralText(NatToString(n))
  {
    var s := NatToString(n);
    assert IsDigit(s[0]) && IsDigit(s[|s| - 1]);
  }

  /** Round trip: what the formatter prints, float() reads back as the
      rounded number. */
  lemma ParseFormatFixed(x: real, d: nat)
    ensures ParseDecimal(FormatFixed(x, d)) == Some(Rounded(x, d))
  {
    ParseSignedFixed(x < 0.0, ScaledMagnitude(x, d), d);
  }

  lemma ParseSignedFixed(neg: bool, m: nat, d: nat)
    ensures ParseDecimal(Signed(neg, FixedBody(m, d))) == Some(Negated(neg, Shift(m, d)))
  {
    var body := FixedBody(m, d);
    FixedBodyChars(m, d);
    SignedDigits(neg, body);
    ParseFixedBody(m, d);
  }

  /** A signed rendering whose body starts with a digit splits back into
      its sign and body. */
  lemma SignedDigits(neg: bool, body: string)
    requires |body| > 0 && IsDigit(body[0])
    requires forall i :: 0 <= i < |body| ==> body[i] == '.' || IsDigit(body[i])
    ensures SignSplit(Strip(Signed(neg, body))) == (neg, body)
  {
    var s := Signed(neg, body);
    assert NoSpace(s);
    StripNoSpace(s);
    if neg {
      assert s[1..] == body;
    }
  }

  lemma FixedBodyChars(m: nat, d: nat)
    ensures |FixedBody(m, d)| > 0 && IsDigit(FixedBody(m, d)[0]) && IsDigit(FixedBody(m, d)[|FixedBody(m, d)| - 1])
    ensures forall i :: 0 <= i < |FixedBody(m, d)| ==> FixedBody(m, d)[i] == '.' || IsDigit(FixedBody(m, d)[i])
  {
    var ip := NatToString(IntegerPart(m, d));
    if d > 0 {
      var fp := FractionDigits(m, d);
      var body := ip + ['.'] + fp;
      assert body[|body| - 1] == fp[|fp| - 1];
      forall i | 0 <= i < |body| ensures body[i] == '.' || IsDigit(body[i]) {
        if i < |ip| { assert body[i] == ip[i]; }
        else if i > |ip| { assert body[i] == fp[i - |ip| - 1]; }
      }
    }
  }

  /** The unsigned part of a fixed-point rendering reads back as m / 10^d. */
  lemma ParseFixedBody(m: nat, d: nat)
    ensures ParseUnsigned(FixedBody(m, d)) == Some(Shift(m, d))
  {
    if d == 0 {
      ParseFixedBodyInt(m);
    } else {
      ParseFixedBodyPoint(m, d);
    }
  }

  lemma ParseFixedBodyInt(m: nat)
    ensures ParseUnsigned(FixedBody(m, 0)) == Some(Shift(m, 0))
  {
    var ip := NatToString(IntegerPart(m, 0));
    NatToStringValue(IntegerPart(m, 0));
    ParseUnsignedInt(ip);
    ShiftZero(m);
  }

  lemma ParseFixedBodyPoint(m: nat, d: nat)
    requires d >= 1
    ensures ParseUnsigned(FixedBody(m, d)) == Some(Shift(m, d))
  {
    var ip := NatToString(IntegerPart(m, d));
    var fp := FractionDigits(m, d);
    assert FixedValue(ip, fp) == Shift(m, d) by {
      NatToStringValue(IntegerPart(m, d));
      FractionDigitsValue(m, d);
      FixedValueOf(ip, fp, IntegerPart(m, d), FractionPart(m, d));
      SplitScaled(m, d);
    }
    assert FixedBody(m, d) == ip + ['.'] + fp;
    ParseUnsignedPoint(ip, fp);
  }

  lemma FixedValueOf(ip: string, fp: string, i: nat, f: nat)
    requires AllDigits(ip) && AllDigits(fp)
    requires DigitsValue(ip) == i && DigitsValue(fp) == f
    ensures FixedValue(ip, fp) == i as real + Shift(f, |fp|)
  {
  }

  /** The d fraction digits printed are the d low digits of m. */
  lemma FractionDigitsValue(m: nat, d: nat)
    requires d >= 1
    ensures |FractionDigits(m, d)| == d && DigitsValue(FractionDigits(m, d)) == FractionPart(m, d)
  {
    SplitScaled(m, d);
    NatToStringValue(FractionPart(m, d));
    PadZerosValue(NatToString(FractionPart(m, d)), d);
    NatToStringLength(FractionPart(m, d), d);
  }

  lemma ShiftZero(m: nat)
    ensures IntegerPart(m, 0) == m && Shift(m, 0) == m as real
  {
    assert Pow10(0) == 1;
  }

  lemma ParseUnsignedInt(ip: string)
    requires |ip| >= 1 && AllDigits(ip)
    ensures ParseUnsigned(ip) == Some(DigitsValue(ip) as real)
  {
    assert '.' !in ip by { assert forall i :: 0 <= i < |ip| ==> IsDigit(ip[i]); }
    assert ip[..|ip|] == ip;
    FixedValueInt(ip);
  }

  lemma FixedValueInt(ip: string)
    requires AllDigits(ip)
    ensures FixedValue(ip, []) == DigitsValue(ip) as real
  {
    assert Shift(0, 0) == 0.0;
  }

  lemma ParseUnsignedPoint(ip: string, fp: string)
    requires |ip| >= 1 && AllDigits(ip) && AllDigits(fp)
    ensures ParseUnsigned(ip + ['.'] + fp) == Some(FixedValue(ip, fp))
  {
    var body := ip + ['.'] + fp;
    assert '.' !in ip by { assert forall i :: 0 <= i < |ip| ==> IsDigit(ip[i]); }
    FindCharAfter(ip, '.', fp);
    assert body[..|ip|] == ip;
    assert body[|ip| + 1..] == fp;
  }

  /** A number below 10^d has at most d digits. */
  lemma {:induction false} NatToStringLength(n: nat, d: nat)
    requires n < Pow10(d) && d >= 1
    ensures |NatToString(n)| <= d
  {
    if n >= 10 {
      NatToStringLength(n / 10, d - 1);
    }
  }

  /** float(str(n)) == n for the integers Python prints. */
  lemma ParseNatToString(n: nat)
    ensures ParseDecimal(NatToString(n)) == Some(n as real)
  {
    assert Pow10(0) == 1;
    assert IntegerPart(n, 0) == n;
    assert FixedBody(n, 0) == NatToString(n);
    ParseSignedFixed(false, n, 0);
  }

  // ---------------------------------------------------------------
  // C++ prefix conversions (strtoull / strtol / strtod underneath)

  /** C's isspace in the "C" locale: space and \t, \n, \v, \f, \r. */
  predicate IsCSpace(c: char) {
    c == ' ' || 9 <= c as int <= 13
  }

  /** The leading whitespace strtoull and its kin skip. */
  function SkipCSpace(s: string): string
  {
    if |s| > 0 && IsCSpace(s[0]) then SkipCSpace(s[1..]) else s
  }

  /** The longest prefix of decimal digits. */
  function LeadingDigits(s: string): (r: string)
    ensures AllDigits(r) && |r| <= |s| && r == s[..|r|]
    ensures |r| < |s| ==> !IsDigit(s[|r|])
  {
    if |s| > 0 && IsDigit(s[0]) then [s[0]] + LeadingDigits(s[1..]) else []
  }

  /** Why a std::sto* conversion throws. */
  datatype ConvError = InvalidArgument | OutOfRange

  const U64_LIMIT: nat := 0x1_0000_0000_0000_0000

  /** std::stoull (and std::stoul, unsigned long being 64 bits): optional
      whitespace, optional sign, at least one digit, the rest of the text is
      ignored. A value above 2^64 - 1 throws out_of_range; a '-' negates
      modulo 2^64, as strtoull does. */
  function StoULL(s: string): (r: Result<nat, ConvError>)
    ensures r.Ok? ==> r.value < U64_LIMIT
  {
    var (neg, body) := SignSplit(SkipCSpace(s));
    var ds := LeadingDigits(body);
    if |ds| == 0 then Err(InvalidArgument)
    else
      var v := DigitsValue(ds);
      if v >= U64_LIMIT then Err(OutOfRange)
      else if neg then Ok((U64_LIMIT - v) % U64_LIMIT)
      else Ok(v)
  }

  /** std::stoi: a signed value that must fit in 32 bits. */
  function StoI(s: string): (r: Result<int, ConvError>)
    ensures r.Ok? ==> -0x8000_0000 <= r.value < 0x8000_0000
  {
    var (neg, body) := SignSplit(SkipCSpace(s));
    var ds := LeadingDigits(body);
    if |ds| == 0 then Err(InvalidArgument)
    else
      var v := if neg then -(DigitsValue(ds) as int) else DigitsValue(ds) as int;
      if -0x8000_0000 <= v < 0x8000_0000 then Ok(v) else Err(OutOfRange)
  }

  /** std::stod on the literals [sign] digits [. digits]: the longest such
      prefix after whitespace, at least one digit. */
  function StoD(s: string): Result<real, ConvError>
  {
    var (neg, body) := SignSplit(SkipCSpace(s));
    var ip := LeadingDigits(body);
    var fp := if |ip| < |body| && body[|ip|] == '.' then LeadingDigits(body[|ip| + 1..]) else [];
    if |ip| + |fp| == 0 then Err(InvalidArgument)
    else
      var v := FixedValue(ip, fp);
      Ok(if neg then -v else v)
  }

  /** Conversions read a digit prefix: a decimal rendering reads back as
      itself. */
  lemma StoULLNatToString(n: nat)
    requires n < U64_LIMIT
    ensures StoULL(NatToString(n)) == Ok(n)
  {
    var s := NatToString(n);
    NatToStringValue(n);
    assert IsDigit(s[0]);
    assert SkipCSpace(s) == s;
    LeadingDigitsAll(s);
  }

  lemma {:induction false} LeadingDigitsAll(s: string)
    requires AllDigits(s)
    ensures LeadingDigits(s) == s
  {
    if |s| > 0 { LeadingDigitsAll(s[1..]); }
  }

  /** The digit prefix stops at the first character that is not a digit. */
  lemma LeadingDigitsStop(ip: string, rest: string)
    requires AllDigits(ip) && |rest| > 0 && !IsDigit(rest[0])
    ensures LeadingDigits(ip + rest) == ip
  {
    assert (ip + rest)[..|ip|] == ip;
  }

  /** Signing a body that starts with a digit: no whitespace is skipped and
      the sign splits off again. */
  lemma SignedSplits(neg: bool, body: string)
    requires |body| > 0 && IsDigit(body[0])
    ensures SignSplit(SkipCSpace(Signed(neg, body))) == (neg, body)
  {
    var t := Signed(neg, body);
    assert !IsCSpace(t[0]);
    assert SkipCSpace(t) == t;
  }

  /** std::stod reads a signed `ip.fp` as its value. */
  lemma StoDPoint(neg: bool, ip: string, fp: string)
    requires |ip| >= 1 && AllDigits(ip) && AllDigits(fp)
    ensures StoD(Signed(neg, ip + ['.'] + fp)) == Ok(Negated(neg, FixedValue(ip, fp)))
  {
    var body := ip + ['.'] + fp;
    assert body[0] == ip[0];
    SignedSplits(neg, body);
    assert body == ip + (['.'] + fp);
    LeadingDigitsStop(ip, ['.'] + fp);
    assert body[|ip|] == '.';
    assert body[|ip| + 1..] == fp;
    LeadingDigitsAll(fp);
    StoDOf(Signed(neg, body), neg, body, ip, fp);
  }

  /** std::stod once the sign, the integer digits and the fraction digits
      are known. */
  lemma StoDOf(s: string, neg: bool, body: string, ip: string, fp: string)
    requires SignSplit(SkipCSpace(s)) == (neg, body)
    requires LeadingDigits(body) == ip && |ip| >= 1 && |ip| < |body| && body[|ip|] == '.'
    requires LeadingDigits(body[|ip| + 1..]) == fp
    ensures StoD(s) == Ok(Negated(neg, FixedValue(ip, fp)))
  {
  }

  /** std::stod reads a signed run of digits as its value. */
  lemma StoDInt(neg: bool, ip: string)
    requires |ip| >= 1 && AllDigits(ip)
    ensures StoD(Signed(neg, ip)) == Ok(Negated(neg, FixedValue(ip, [])))
  {
    SignedSplits(neg, ip);
    LeadingDigitsAll(ip);
  }

  /** Round trip: what "{x:.<d>f}" prints, std::stod reads back as x
      rounded to d places. */
  lemma StoDFormatFixed(x: real, d: nat)
    ensures StoD(FormatFixed(x, d)) == Ok(Rounded(x, d))
  {
    var m := ScaledMagnitude(x, d);
    var ip := NatToString(IntegerPart(m, d));
    if d == 0 {
      NatToStringValue(IntegerPart(m, 0));
      ShiftZero(m);
      FixedValueInt(ip);
      StoDInt(x < 0.0, ip);
    } else {
      var fp := FractionDigits(m, d);
      assert FixedValue(ip, fp) == Shift(m, d) by {
        NatToStringValue(IntegerPart(m, d));
        FractionDigitsValue(m, d);
        FixedValueOf(ip, fp, IntegerPart(m, d), FractionPart(m, d));
        SplitScaled(m, d);
      }
      assert FormatFixed(x, d) == Signed(x < 0.0, ip + ['.'] + fp);
      StoDPoint(x < 0.0, ip, fp);
    }
  }
}
