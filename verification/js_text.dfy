/** The JavaScript string primitives the forms and the id counter rely on:
    `String.prototype.trim`, `String(n)` for integers, `parseInt(s, 10)`, and
    `Number(s)` (what `isNaN` consults) restricted to plain decimal literals. */
module JsText {
  import opened Optional

  predicate IsDigit(c: char) {
    '0' <= c <= '9'
  }

  predicate AllDigits(s: string) {
    forall i :: 0 <= i < |s| ==> IsDigit(s[i])
  }

  function DigitValue(c: char): (v: nat)
    requires IsDigit(c)
    ensures v < 10
  {
    (c as int) - ('0' as int)
  }

  function DigitChar(v: nat): (c: char)
    requires v < 10
    ensures IsDigit(c) && DigitValue(c) == v
  {
    (('0' as int) + v) as char
  }

  /** The characters `trim` and `parseInt` skip: ECMAScript's WhiteSpace and
      LineTerminator code points. */
  predicate IsWhiteSpace(c: char) {
    var n := c as int;
    n == 0x09 || n == 0x0A || n == 0x0B || n == 0x0C || n == 0x0D || n == 0x20 ||
    n == 0xA0 || n == 0x1680 || (0x2000 <= n <= 0x200A) || n == 0x2028 ||
    n == 0x2029 || n == 0x202F || n == 0x205F || n == 0x3000 || n == 0xFEFF
  }

  /** `s` with its leading white space removed. */
  function TrimStart(s: string): (r: string)
    ensures |r| <= |s| && r == s[|s| - |r|..]
    ensures forall i :: 0 <= i < |s| - |r| ==> IsWhiteSpace(s[i])
    ensures r != [] ==> !IsWhiteSpace(r[0])
    decreases |s|
  {
    if s != [] && IsWhiteSpace(s[0]) then TrimStart(s[1..]) else s
  }

  /** `s` with its trailing white space removed. */
  function TrimEnd(s: string): (r: string)
    ensures |r| <= |s| && r == s[..|r|]
    ensures forall i :: |r| <= i < |s| ==> IsWhiteSpace(s[i])
    ensures r != [] ==> !IsWhiteSpace(r[|r| - 1])
    decreases |s|
  {
    if s != [] && IsWhiteSpace(s[|s| - 1]) then TrimEnd(s[..|s| - 1]) else s
  }

  /** `String.prototype.trim`: neither end of the result is white space. What was
      cut away is stated by `TrimCutsOnlyWhiteSpace`. */
  function Trim(s: string): (r: string)
    ensures |r| <= |s|
    ensures r != [] ==> !IsWhiteSpace(r[0]) && !IsWhiteSpace(r[|r| - 1])
  {
    TrimEnd(TrimStart(s))
  }

  /** `r` is what remains of `s` once some white space is cut from each end. */
  predicate CutFromEnds(s: string, r: string) {
    exists a :: 0 <= a <= |s| && r <= s[a..] &&
      (forall i :: 0 <= i < a ==> IsWhiteSpace(s[i])) &&
      (forall i :: a + |r| <= i < |s| ==> IsWhiteSpace(s[i]))
  }

  /** `trim` returns a slice of its input: white space is cut from the two ends
      and nothing else is removed. */
  lemma TrimCutsOnlyWhiteSpace(s: string)
    ensures CutFromEnds(s, Trim(s))
  {
    var t := TrimStart(s);
    CutSuffixThenPrefix(s, t, TrimEnd(t));
  }

  /** Cutting white space from the front and then from the back cuts it from both
      ends. */
  lemma CutSuffixThenPrefix(s: string, t: string, r: string)
    requires |t| <= |s| && t == s[|s| - |t|..]
    requires forall i :: 0 <= i < |s| - |t| ==> IsWhiteSpace(s[i])
    requires |r| <= |t| && r == t[..|r|]
    requires forall i :: |r| <= i < |t| ==> IsWhiteSpace(t[i])
    ensures CutFromEnds(s, r)
  {
    var a := |s| - |t|;
    forall i | a + |r| <= i < |s|
      ensures IsWhiteSpace(s[i])
    {
      assert s[i] == t[i - a];
    }
    assert r <= s[a..];
  }

  /** `!s.trim()`: the string is empty once trimmed. */
  predicate IsBlank(s: string) {
    Trim(s) == ""
  }

  /** A string is blank exactly when every character of it is white space. */
  lemma BlankIffAllWhiteSpace(s: string)
    ensures IsBlank(s) <==> forall i :: 0 <= i < |s| ==> IsWhiteSpace(s[i])
  {
    var t := TrimStart(s);
    assert t != [] ==> t[0] == s[|s| - |t|] && !IsWhiteSpace(t[0]);
    assert t != [] ==> TrimEnd(t) != [];
  }

  // ----- decimal numerals -----

  /** The value of a string of decimal digits (the empty string counts as 0). */
  function DigitsValue(s: string): nat
    requires AllDigits(s)
    decreases |s|
  {
    if s == [] then 0 else DigitsValue(s[..|s| - 1]) * 10 + DigitValue(s[|s| - 1])
  }

  /** `String(n)` for a non-negative integer: its shortest decimal numeral. */
  function NatToDecimal(n: nat): (s: string)
    ensures |s| >= 1 && AllDigits(s)
    ensures |s| > 1 ==> s[0] != '0'
    decreases n
  {
    if n < 10 then [DigitChar(n)] else NatToDecimal(n / 10) + [DigitChar(n % 10)]
  }

  /** `String(n)` for any integer. */
  function IntToDecimal(n: int): (s: string)
    ensures |s| >= 1
    ensures n >= 0 <==> IsDigit(s[0])
  {
    if n < 0 then "-" + NatToDecimal(-n) else NatToDecimal(n)
  }

  /** Reading back the numeral `String(n)` gives `n`. */
  lemma {:induction false} DigitsValueOfNatToDecimal(n: nat)
    ensures DigitsValue(NatToDecimal(n)) == n
    decreases n
  {
    var s := NatToDecimal(n);
    if n >= 10 {
      assert s[..|s| - 1] == NatToDecimal(n / 10);
      DigitsValueOfNatToDecimal(n / 10);
    }
  }

  /** A numeral with no leading zero is `String` of its own value. */
  lemma {:induction false} NatToDecimalOfDigitsValue(s: string)
    requires |s| >= 1 && AllDigits(s) && (|s| > 1 ==> s[0] != '0')
    ensures NatToDecimal(DigitsValue(s)) == s
    decreases |s|
  {
    var p := s[..|s| - 1];
    if |s| > 1 {
      assert p[0] == s[0];
      NatToDecimalOfDigitsValue(p);
      PositiveWithoutLeadingZero(p);
      assert s == p + [s[|s| - 1]];
    }
  }

  /** A numeral of two or more digits that does not start with `0` is at least 10,
      and a one-digit numeral other than `0` is at least 1. */
  lemma {:induction false} PositiveWithoutLeadingZero(s: string)
    requires |s| >= 1 && AllDigits(s) && s[0] != '0'
    ensures DigitsValue(s) >= 1
    decreases |s|
  {
    if |s| > 1 {
      var p := s[..|s| - 1];
      assert p[0] == s[0];
      PositiveWithoutLeadingZero(p);
    }
  }

  /** The length of the longest prefix of `s` made of decimal digits. */
  function LeadingDigits(s: string): (k: nat)
    ensures k <= |s|
    ensures forall i :: 0 <= i < k ==> IsDigit(s[i])
    ensures k < |s| ==> !IsDigit(s[k])
    decreases |s|
  {
    if s != [] && IsDigit(s[0]) then 1 + LeadingDigits(s[1..]) else 0
  }

  /** The leading run of digits of `u` as a number; `None` when `u` does not
      start with a digit. */
  function ParseDigits(u: string): (r: Option<int>)
    ensures r.Some? ==> r.value >= 0
  {
    var k := LeadingDigits(u);
    if k == 0 then None else Some(DigitsValue(u[..k]))
  }

  /** An optional `-` or `+` followed by digits. */
  function ParseSigned(t: string): Option<int> {
    if t != [] && t[0] == '-' then
      match ParseDigits(t[1..])
      case Some(v) => Some(-v)
      case None => None
    else if t != [] && t[0] == '+' then ParseDigits(t[1..])
    else ParseDigits(t)
  }

  /** `parseInt(s, 10)`: skip leading white space, read an optional sign, then the
      longest run of decimal digits; `None` is `NaN` (no digit where one was due). */
  function ParseInt(s: string): Option<int>
    decreases |s|
  {
    if s != [] && IsWhiteSpace(s[0]) then ParseInt(s[1..]) else ParseSigned(s)
  }

  /** `parseInt` reads what follows the leading white space. */
  lemma {:induction false} ParseIntAfterTrimStart(s: string)
    ensures ParseInt(s) == ParseSigned(TrimStart(s))
    decreases |s|
  {
    if s != [] && IsWhiteSpace(s[0]) {
      ParseIntAfterTrimStart(s[1..]);
    }
  }

  lemma ParseDigitsReadsNumeral(n: nat, rest: string)
    requires rest == [] || !IsDigit(rest[0])
    ensures ParseDigits(NatToDecimal(n) + rest) == Some(n)
  {
    var d := NatToDecimal(n);
    var u := d + rest;
    assert forall i :: 0 <= i < |d| ==> u[i] == d[i];
    assert |d| < |u| ==> u[|d|] == rest[0];
    assert LeadingDigits(u) == |d|;
    assert u[..|d|] == d;
    DigitsValueOfNatToDecimal(n);
  }

  lemma ParseSignedReadsNumeral(n: int, rest: string)
    requires rest == [] || !IsDigit(rest[0])
    ensures ParseSigned(IntToDecimal(n) + rest) == Some(n)
  {
    if n < 0 {
      var d := NatToDecimal(-n);
      assert IntToDecimal(n) == "-" + d;
      assert ("-" + d) + rest == "-" + (d + rest);
      ParseSignedReadsNegative(-n, rest);
    } else {
      ParseSignedReadsUnsigned(n, rest);
    }
  }

  lemma ParseSignedReadsNegative(m: nat, rest: string)
    requires rest == [] || !IsDigit(rest[0])
    ensures ParseSigned("-" + (NatToDecimal(m) + rest)) == Some(0 - m as int)
  {
    var s := "-" + (NatToDecimal(m) + rest);
    assert s[1..] == NatToDecimal(m) + rest;
    ParseDigitsReadsNumeral(m, rest);
  }

  lemma ParseSignedReadsUnsigned(m: nat, rest: string)
    requires rest == [] || !IsDigit(rest[0])
    ensures ParseSigned(NatToDecimal(m) + rest) == Some(m)
  {
    var s := NatToDecimal(m) + rest;
    assert s[0] == NatToDecimal(m)[0];
    ParseDigitsReadsNumeral(m, rest);
  }

  /** `parseInt` reads the numeral `String(n)` at the front of a string and stops
      at the first character that is not a digit. */
  lemma ParseIntReadsLeadingNumeral(n: int, rest: string)
    requires rest == [] || !IsDigit(rest[0])
    ensures ParseInt(IntToDecimal(n) + rest) == Some(n)
  {
    var s := IntToDecimal(n) + rest;
    var c := IntToDecimal(n)[0];
    assert s[0] == c;
    assert !IsWhiteSpace(c);
    ParseSignedReadsNumeral(n, rest);
  }

  /** `parseInt(String(n), 10) == n` for every integer `n`. */
  lemma ParseIntOfIntToDecimal(n: int)
    ensures ParseInt(IntToDecimal(n)) == Some(n)
  {
    ParseIntReadsLeadingNumeral(n, "");
    assert IntToDecimal(n) + "" == IntToDecimal(n);
  }

  /** Leading white space never changes what `parseInt` reads. */
  lemma {:induction false} ParseIntSkipsLeadingWhiteSpace(w: string, s: string)
    requires forall i :: 0 <= i < |w| ==> IsWhiteSpace(w[i])
    ensures ParseInt(w + s) == ParseInt(s)
    decreases |w|
  {
    if w == [] {
      assert w + s == s;
    } else {
      var ws := w + s;
      assert ws[0] == w[0] && IsWhiteSpace(ws[0]);
      assert ws[1..] == w[1..] + s;
      ParseIntSkipsLeadingWhiteSpace(w[1..], s);
    }
  }

  /** A string without a single decimal digit parses to `NaN`. */
  lemma ParseIntWithoutDigits(s: string)
    requires forall i :: 0 <= i < |s| ==> !IsDigit(s[i])
    ensures ParseInt(s) == None
  {
    ParseIntAfterTrimStart(s);
    var t := TrimStart(s);
    assert t != [] ==> t[0] == s[|s| - |t|];
    assert |t| > 1 ==> t[1] == s[|s| - |t| + 1];
  }

  /** Ten to the power `k`. */
  function Pow10(k: nat): (p: nat)
    ensures p >= 1
  {
    if k == 0 then 1 else 10 * Pow10(k - 1)
  }

  /** `n` with the decimal point moved `k` places to the left. */
  function Shift(n: nat, k: nat): (v: real)
    ensures v >= 0.0
  {
    if k == 0 then n as real else Shift(n, k - 1) / 10.0
  }

  /** Moving the decimal point `k` places divides by ten to the `k`. */
  lemma {:induction false} ShiftIsQuotient(n: nat, k: nat)
    ensures Shift(n, k) == n as real / Pow10(k) as real
  {
    if k > 0 {
      ShiftIsQuotient(n, k - 1);
      var p := Pow10(k - 1) as real;
      assert Pow10(k) as real == 10.0 * p;
      assert (n as real / p) / 10.0 == n as real / (10.0 * p);
    }
  }

  /** The value of an unsigned decimal literal `digits[.digits]` or `.digits`
      with at least one digit, or `None`. */
  function UnsignedDecimalValue(s: string): (r: Option<real>)
    ensures r.Some? ==> r.value >= 0.0
  {
    var k := LeadingDigits(s);
    var whole := s[..k];
    if k == |s| then
      (if k == 0 then None else Some(DigitsValue(whole) as real))
    else if s[k] != '.' then None
    else
      var frac := s[k + 1..];
      var m := LeadingDigits(frac);
      if m != |frac| || (k == 0 && m == 0) then None
      else Some(DigitsValue(whole) as real + Shift(DigitsValue(frac), m))
  }

  /** The negated value; `NaN` stays `NaN`. */
  function Negate(v: Option<real>): Option<real> {
    match v
    case Some(x) => Some(-x)
    case None => None
  }

  /** `Number(s)` on decimal literals: white space around the literal is ignored,
      a blank string is 0, an optional sign precedes the digits; `None` is `NaN`. */
  function NumberValue(s: string): (r: Option<real>)
    ensures IsBlank(s) ==> r == Some(0.0)
  {
    var t := Trim(s);
    if t == [] then Some(0.0)
    else if t[0] == '-' then Negate(UnsignedDecimalValue(t[1..]))
    else if t[0] == '+' then UnsignedDecimalValue(t[1..])
    else UnsignedDecimalValue(t)
  }

  /** A plain numeral denotes a positive number exactly when one of its digits is not 0. */
  lemma {:induction false} DigitsValuePositive(s: string)
    requires AllDigits(s)
    ensures DigitsValue(s) > 0 <==> exists i :: 0 <= i < |s| && s[i] != '0'
    decreases |s|
  {
    if s != [] {
      var p := s[..|s| - 1];
      DigitsValuePositive(p);
      if exists i :: 0 <= i < |p| && p[i] != '0' {
        var i :| 0 <= i < |p| && p[i] != '0';
        assert s[i] == p[i];
      }
      if exists i :: 0 <= i < |s| && s[i] != '0' {
        var i :| 0 <= i < |s| && s[i] != '0';
        if i < |p| {
          assert p[i] == s[i];
        }
      }
    }
  }

  /** A string that neither starts nor ends with white space is its own trim. */
  lemma TrimUntouched(s: string)
    requires s != [] && !IsWhiteSpace(s[0]) && !IsWhiteSpace(s[|s| - 1])
    ensures Trim(s) == s
  {
    assert TrimStart(s) == s;
    assert TrimEnd(s) == s;
  }

  /** A numeral is never blank. */
  lemma NumeralNotBlank(s: string)
    requires |s| >= 1 && AllDigits(s)
    ensures !IsBlank(s)
  {
    assert !IsWhiteSpace(s[0]);
    BlankIffAllWhiteSpace(s);
  }

  /** An unsigned decimal literal without a fraction denotes its digits' value. */
  lemma UnsignedDecimalOfNumeral(s: string)
    requires |s| >= 1 && AllDigits(s)
    ensures UnsignedDecimalValue(s) == Some(DigitsValue(s) as real)
  {
    assert LeadingDigits(s) == |s|;
    assert s[..|s|] == s;
  }

  /** `Number` of a plain numeral is the numeral's value. */
  lemma NumberOfNumeral(s: string)
    requires |s| >= 1 && AllDigits(s)
    ensures NumberValue(s) == Some(DigitsValue(s) as real)
  {
    TrimUntouched(s);
    UnsignedDecimalOfNumeral(s);
  }

  /** The value denoted by the decimal literal `w.f`. */
  function DecimalValue(w: string, f: string): (v: real)
    requires AllDigits(w) && AllDigits(f)
    ensures v >= 0.0
  {
    DigitsValue(w) as real + Shift(DigitsValue(f), |f|)
  }

  /** The digits at the front of `w + rest` are exactly `w` when `rest` does not
      start with a digit. */
  lemma LeadingDigitsOfNumeral(w: string, rest: string)
    requires AllDigits(w) && (rest == [] || !IsDigit(rest[0]))
    ensures LeadingDigits(w + rest) == |w|
  {
    var u := w + rest;
    assert forall i :: 0 <= i < |w| ==> u[i] == w[i];
    assert |w| < |u| ==> u[|w|] == rest[0];
  }

  /** An unsigned literal `w.f` with at least one digit denotes `DecimalValue(w, f)`. */
  lemma UnsignedDecimalOfFraction(w: string, f: string)
    requires AllDigits(w) && AllDigits(f) && |w| + |f| >= 1
    ensures UnsignedDecimalValue(w + "." + f) == Some(DecimalValue(w, f))
  {
    var s := w + "." + f;
    LeadingDigitsOfNumeral(w, "." + f);
    assert s == w + ("." + f);
    assert s[..|w|] == w;
    assert s[|w|] == '.';
    assert s[|w| + 1..] == f;
    LeadingDigitsOfNumeral(f, "");
    assert f + "" == f;
  }

  /** Text that neither starts with a sign nor starts or ends with white space is
      read by `Number` as an unsigned literal. */
  lemma NumberOfUnsigned(u: string)
    requires u != [] && u[0] != '+' && u[0] != '-'
    requires !IsWhiteSpace(u[0]) && !IsWhiteSpace(u[|u| - 1])
    ensures NumberValue(u) == UnsignedDecimalValue(u)
  {
    TrimUntouched(u);
  }

  /** A `+` in front of an unsigned literal changes nothing. */
  lemma NumberOfPlus(u: string)
    requires u != [] && !IsWhiteSpace(u[|u| - 1])
    ensures NumberValue("+" + u) == UnsignedDecimalValue(u)
  {
    var p := "+" + u;
    assert p[1..] == u && p[|p| - 1] == u[|u| - 1];
    TrimUntouched(p);
  }

  /** A `-` in front of an unsigned literal negates its value. */
  lemma NumberOfMinus(u: string, v: real)
    requires u != [] && !IsWhiteSpace(u[|u| - 1]) && UnsignedDecimalValue(u) == Some(v)
    ensures NumberValue("-" + u) == Some(-v)
  {
    var m := "-" + u;
    assert m[1..] == u && m[|m| - 1] == u[|u| - 1];
    TrimUntouched(m);
    NegateSome(UnsignedDecimalValue(u), v);
  }

  lemma NegateSome(o: Option<real>, v: real)
    requires o == Some(v)
    ensures Negate(o) == Some(-v)
  {
  }

  /** A literal with a fraction point, as in `"0.5"`, `"2."` or `".5"`, denotes
      the whole part plus the fraction. */
  lemma NumberOfDecimal(w: string, f: string)
    requires AllDigits(w) && AllDigits(f) && |w| + |f| >= 1
    ensures NumberValue(w + "." + f) == Some(DecimalValue(w, f))
  {
    var u := w + "." + f;
    UnsignedDecimalOfFraction(w, f);
    assert u[0] == (if w == [] then '.' else w[0]);
    assert u[|u| - 1] == (if f == [] then '.' else f[|f| - 1]);
    NumberOfUnsigned(u);
  }

  /** The same literal with a `+` in front, as in `"+0.5"`, denotes the same value. */
  lemma NumberOfPlusDecimal(w: string, f: string)
    requires AllDigits(w) && AllDigits(f) && |w| + |f| >= 1
    ensures NumberValue("+" + (w + "." + f)) == Some(DecimalValue(w, f))
  {
    var u := w + "." + f;
    UnsignedDecimalOfFraction(w, f);
    assert u[|u| - 1] == (if f == [] then '.' else f[|f| - 1]);
    NumberOfPlus(u);
  }

  /** The same literal with a `-` in front, as in `"-0.5"`, denotes its negation. */
  lemma NumberOfMinusDecimal(w: string, f: string)
    requires AllDigits(w) && AllDigits(f) && |w| + |f| >= 1
    ensures NumberValue("-" + (w + "." + f)).Some? &&
      NumberValue("-" + (w + "." + f)).value == -DecimalValue(w, f)
  {
    var u := w + "." + f;
    UnsignedDecimalOfFraction(w, f);
    assert u[|u| - 1] == (if f == [] then '.' else f[|f| - 1]);
    NumberOfMinus(u, DecimalValue(w, f));
  }

  /** A numeral with a `+` in front, as in `"+3"`, denotes its value. */
  lemma NumberOfPlusNumeral(s: string)
    requires |s| >= 1 && AllDigits(s)
    ensures NumberValue("+" + s) == Some(DigitsValue(s) as real)
  {
    UnsignedDecimalOfNumeral(s);
    NumberOfPlus(s);
  }

  /** A numeral with a `-` in front, as in `"-3"`, denotes the negated value. */
  lemma NumberOfMinusNumeral(s: string)
    requires |s| >= 1 && AllDigits(s)
    ensures NumberValue("-" + s).Some? && NumberValue("-" + s).value == -(DigitsValue(s) as real)
  {
    UnsignedDecimalOfNumeral(s);
    NumberOfMinus(s, DigitsValue(s) as real);
  }

  /** `Number(String(n))` is `n` for every integer. */
  lemma NumberOfIntToDecimal(n: int)
    ensures NumberValue(IntToDecimal(n)) == Some(n as real)
  {
    if n >= 0 {
      NumberOfNumeral(NatToDecimal(n));
      DigitsValueOfNatToDecimal(n);
    } else {
      var d := NatToDecimal(-n);
      var t := "-" + d;
      assert t == IntToDecimal(n);
      assert t[|t| - 1] == d[|d| - 1];
      TrimUntouched(t);
      assert t[1..] == d;
      UnsignedDecimalOfNumeral(d);
      DigitsValueOfNatToDecimal(-n);
    }
  }
}
