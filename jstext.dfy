/** The JavaScript string and number primitives the authentication service
    relies on: the `\s` character class, `String.prototype.trim`, the UTF-16
    `length` of a string, the global `parseInt`, and `Number.prototype.toString`
    on integers. */
module JsText {
  import opened Common

  /** Concatenation regrouped to the right. */
  lemma Regroup(a: string, b: string, c: string, d: string)
    ensures a + b + c + d == a + (b + (c + d))
    ensures (a + (b + c)) + d == a + (b + (c + d))
  {
  }

  lemma Assoc(a: string, b: string, c: string)
    ensures a + b + c == a + (b + c)
  {
  }

  /** `\s` in an ECMAScript regular expression: the WhiteSpace and
      LineTerminator code points. `String.prototype.trim` and `parseInt`
      strip exactly the same set. */
  predicate IsWhiteSpace(c: char): (r: bool)
    ensures r ==> !IsDigit(c) && c != '-' && c != '+' && c != '@' && c != '.'
    ensures c < '\U{80}' ==> (r <==> c == '\t' || c == '\n' || c == '\U{B}' || c == '\U{C}' || c == '\r' || c == ' ')
  {
    || c == '\t' || c == '\n' || c == '\U{B}' || c == '\U{C}' || c == '\r'
    || c == ' ' || c == '\U{A0}' || c == '\U{1680}'
    || ('\U{2000}' <= c <= '\U{200A}')
    || c == '\U{2028}' || c == '\U{2029}' || c == '\U{202F}' || c == '\U{205F}'
    || c == '\U{3000}' || c == '\U{FEFF}'
  }

  /** Number of white-space characters at the start of `s`. */
  function LeadingSpaces(s: string): (k: nat)
    ensures k <= |s|
    ensures forall i :: 0 <= i < k ==> IsWhiteSpace(s[i])
    ensures k < |s| ==> !IsWhiteSpace(s[k])
  {
    if |s| > 0 && IsWhiteSpace(s[0]) then 1 + LeadingSpaces(s[1..]) else 0
  }

  /** Number of white-space characters at the end of `s`. */
  function TrailingSpaces(s: string): (k: nat)
    ensures k <= |s|
    ensures forall i :: |s| - k <= i < |s| ==> IsWhiteSpace(s[i])
    ensures k < |s| ==> !IsWhiteSpace(s[|s| - 1 - k])
  {
    if |s| > 0 && IsWhiteSpace(s[|s| - 1]) then 1 + TrailingSpaces(s[..|s| - 1]) else 0
  }

  /** `s.trim()`: `s` without its leading and trailing white space. The
      result is the slice of `s` that starts at its first non-space
      character, with only white space after it in `s`. */
  function Trim(s: string): (r: string)
    ensures r == "" || (!IsWhiteSpace(r[0]) && !IsWhiteSpace(r[|r| - 1]))
    ensures r == "" <==> forall i :: 0 <= i < |s| ==> IsWhiteSpace(s[i])
    ensures LeadingSpaces(s) + |r| <= |s|
    ensures r == s[LeadingSpaces(s)..LeadingSpaces(s) + |r|]
    ensures forall i :: LeadingSpaces(s) + |r| <= i < |s| ==> IsWhiteSpace(s[i])
  {
    var t := s[LeadingSpaces(s)..];
    t[..|t| - TrailingSpaces(t)]
  }

  /** A string with no white space at either end is its own trim. */
  lemma TrimUnchanged(s: string)
    requires s == "" || (!IsWhiteSpace(s[0]) && !IsWhiteSpace(s[|s| - 1]))
    ensures Trim(s) == s
  {
  }

  /** `s.length` in JavaScript: UTF-16 code units, so a character outside
      the Basic Multilingual Plane counts twice. */
  function Utf16Length(s: string): (n: nat)
    ensures |s| <= n <= 2 * |s|
    ensures (forall i :: 0 <= i < |s| ==> s[i] as int <= 0xFFFF) ==> n == |s|
    ensures |s| == 1 ==> n == if s[0] as int > 0xFFFF then 2 else 1
  {
    if s == [] then 0
    else (if s[0] as int > 0xFFFF then 2 else 1) + Utf16Length(s[1..])
  }

  /** The UTF-16 length of a concatenation is the sum of the lengths, so
      together with the one-character case it fixes the length of every
      string. */
  lemma {:induction false} Utf16Append(a: string, b: string)
    ensures Utf16Length(a + b) == Utf16Length(a) + Utf16Length(b)
  {
    if a != [] {
      assert (a + b)[0] == a[0];
      assert (a + b)[1..] == a[1..] + b;
      Utf16Append(a[1..], b);
    } else {
      assert a + b == b;
    }
  }

  /** `\d` in an ECMAScript regular expression: an ASCII decimal digit. */
  predicate IsDigit(c: char) {
    '0' <= c <= '9'
  }

  predicate AllDecimal(s: string) {
    forall i :: 0 <= i < |s| ==> IsDigit(s[i])
  }

  predicate AllHex(s: string) {
    forall i :: 0 <= i < |s| ==> IsHexDigit(s[i])
  }

  /** A digit of the given radix (10 or 16) as `parseInt` reads it. */
  predicate IsRadixDigit(c: char, radix: nat) {
    if radix == 16 then IsHexDigit(c) else IsDigit(c)
  }

  predicate IsHexDigit(c: char) {
    IsDigit(c) || 'a' <= c <= 'f' || 'A' <= c <= 'F'
  }

  /** The value of a hexadecimal digit; other characters are never read
      as digits and count as 0. */
  function RadixDigitValue(c: char): (v: nat)
    ensures v < 16
    ensures IsDigit(c) ==> v < 10
  {
    if IsDigit(c) then c as nat - '0' as nat
    else if 'a' <= c <= 'f' then c as nat - 'a' as nat + 10
    else if 'A' <= c <= 'F' then c as nat - 'A' as nat + 10
    else 0
  }

  /** Length of the longest prefix of `s` made of radix digits. */
  function LeadingDigits(s: string, radix: nat): (k: nat)
    ensures k <= |s|
    ensures k < |s| ==> !IsRadixDigit(s[k], radix)
  {
    if |s| > 0 && IsRadixDigit(s[0], radix) then 1 + LeadingDigits(s[1..], radix) else 0
  }

  /** The value of a string of radix digits, most significant first. */
  function DigitsValue(ds: string, radix: nat): nat {
    if ds == [] then 0
    else DigitsValue(ds[..|ds| - 1], radix) * radix + RadixDigitValue(ds[|ds| - 1])
  }

  /** A run of radix digits followed by a non-digit is read up to that
      non-digit. */
  lemma {:induction false} DigitsRead(ds: string, rest: string, radix: nat)
    requires forall i :: 0 <= i < |ds| ==> IsRadixDigit(ds[i], radix)
    requires rest == "" || !IsRadixDigit(rest[0], radix)
    ensures LeadingDigits(ds + rest, radix) == |ds|
    ensures (ds + rest)[..|ds|] == ds
  {
    if ds != "" {
      assert (ds + rest)[1..] == ds[1..] + rest;
      DigitsRead(ds[1..], rest, radix);
    }
  }

  /** Text after the sign from which `parseInt` reads no digit: it is
      empty, does not start with a digit, or is `0x`/`0X` with no
      hexadecimal digit after it. */
  predicate MagnitudeNaN(u: string) {
    || u == "" || !IsDigit(u[0])
    || (|u| >= 2 && u[0] == '0' && (u[1] == 'x' || u[1] == 'X') && (|u| == 2 || !IsHexDigit(u[2])))
  }

  /** Text after the leading white space from which `parseInt` reads no
      digit: after an optional sign, the rest reads no digit. */
  predicate SignedNaN(t: string) {
    MagnitudeNaN(if t != "" && (t[0] == '-' || t[0] == '+') then t[1..] else t)
  }

  /** What `parseInt` reads after the sign: a `0x`/`0X` prefix selects
      radix 16, otherwise radix 10; the value is that of the longest run of
      digits that follows, and no digit at all is `NaN` (here `None`). */
  function ParseMagnitude(u: string): (r: Option<nat>)
    ensures r.None? <==> MagnitudeNaN(u)
  {
    var hex := |u| >= 2 && u[0] == '0' && (u[1] == 'x' || u[1] == 'X');
    var radix := if hex then 16 else 10;
    var body := if hex then u[2..] else u;
    var k := LeadingDigits(body, radix);
    if k == 0 then None else Some(DigitsValue(body[..k], radix))
  }

  /** A magnitude, negated after a minus sign; `NaN` stays `NaN`. */
  function Signed(negative: bool, m: Option<nat>): (r: Option<int>)
    ensures r.Some? <==> m.Some?
    ensures m.Some? ==> r.value == if negative then -(m.value as int) else m.value
  {
    match m
    case None => None
    case Some(v) => Some(if negative then -(v as int) else v)
  }

  /** What `parseInt` reads after the leading white space: an optional
      sign, then the magnitude. */
  function ParseSigned(t: string): (r: Option<int>)
    ensures r.None? <==> SignedNaN(t)
  {
    var signed := |t| > 0 && (t[0] == '-' || t[0] == '+');
    Signed(signed && t[0] == '-', ParseMagnitude(if signed then t[1..] else t))
  }

  /** The global `parseInt(s)` with no radix: leading white space is
      skipped, then a sign and a magnitude are read. */
  function ParseInt(s: string): Option<int> {
    if |s| > 0 && IsWhiteSpace(s[0]) then ParseInt(s[1..]) else ParseSigned(s)
  }

  /** `parseInt` is `NaN` exactly when, after the leading white space and
      an optional sign, no digit can be read: all-white-space text, a sign
      with nothing or a non-digit after it, any other non-digit, and `0x`
      or `0X` without a hexadecimal digit. */
  lemma {:induction false} ParseIntNaN(s: string)
    ensures ParseInt(s).None? <==> SignedNaN(s[LeadingSpaces(s)..])
  {
    if |s| > 0 && IsWhiteSpace(s[0]) {
      assert s[LeadingSpaces(s)..] == s[1..][LeadingSpaces(s[1..])..];
      ParseIntNaN(s[1..]);
    }
  }

  /** `parseInt` ignores any leading white space. */
  lemma {:induction false} SpacesIgnored(ws: string, s: string)
    requires forall i :: 0 <= i < |ws| ==> IsWhiteSpace(ws[i])
    ensures ParseInt(ws + s) == ParseInt(s)
  {
    if ws != "" {
      var t := ws + s;
      assert t[0] == ws[0] && IsWhiteSpace(t[0]);
      assert ParseInt(t) == ParseInt(t[1..]);
      assert t[1..] == ws[1..] + s;
      SpacesIgnored(ws[1..], s);
    } else {
      assert ws + s == s;
    }
  }

  /** An optional sign in front of text that starts with a digit:
      `parseInt` reads the magnitude of that text, negated after a minus
      sign. */
  lemma SignRead(sign: string, u: string)
    requires sign == "" || sign == "+" || sign == "-"
    requires u != "" && IsDigit(u[0])
    ensures ParseInt(sign + u) == Signed(sign == "-", ParseMagnitude(u))
  {
    var t := sign + u;
    if sign == "" {
      assert t == u && !IsWhiteSpace(u[0]);
    } else {
      assert t[0] == sign[0] && t[1..] == u;
      assert !IsWhiteSpace(t[0]);
    }
  }

  /** A run of decimal digits that the next character does not continue,
      and that is not a lone `0` starting the `0x` prefix, reads as its
      decimal value. */
  lemma DecimalMagnitude(ds: string, rest: string)
    requires ds != "" && AllDecimal(ds)
    requires rest == "" || (!IsDigit(rest[0]) && !(ds == "0" && (rest[0] == 'x' || rest[0] == 'X')))
    ensures ParseMagnitude(ds + rest) == Some(DigitsValue(ds, 10))
  {
    var u := ds + rest;
    assert |ds| >= 2 ==> u[1] == ds[1];
    assert |ds| == 1 && rest != "" ==> u[1] == rest[0];
    DigitsRead(ds, rest, 10);
  }

  /** `0x` or `0X`, a run of hexadecimal digits, and a character that does
      not continue it read as the hexadecimal value of the run. */
  lemma HexMagnitude(prefix: string, hs: string, rest: string)
    requires prefix == "0x" || prefix == "0X"
    requires hs != "" && AllHex(hs)
    requires rest == "" || !IsHexDigit(rest[0])
    ensures ParseMagnitude(prefix + (hs + rest)) == Some(DigitsValue(hs, 16))
  {
    var u := prefix + (hs + rest);
    assert |u| >= 2 && u[0] == '0' && u[1] == prefix[1];
    assert u[2..] == hs + rest;
    DigitsRead(hs, rest, 16);
  }

  /** `parseInt` of white space, an optional sign, a run of decimal digits
      and any text that does not continue the run (nor turns a lone `0`
      into the `0x` prefix) is the signed decimal value of the run. */
  lemma ParseIntOfDecimal(ws: string, sign: string, ds: string, rest: string)
    requires forall i :: 0 <= i < |ws| ==> IsWhiteSpace(ws[i])
    requires sign == "" || sign == "+" || sign == "-"
    requires ds != "" && AllDecimal(ds)
    requires rest == "" || (!IsDigit(rest[0]) && !(ds == "0" && (rest[0] == 'x' || rest[0] == 'X')))
    ensures ParseInt(ws + sign + ds + rest) ==
      Some(if sign == "-" then -(DigitsValue(ds, 10) as int) else DigitsValue(ds, 10))
  {
    var u := ds + rest;
    Assoc(ws + sign, ds, rest);
    Assoc(ws, sign, u);
    SpacesIgnored(ws, sign + u);
    DecimalMagnitude(ds, rest);
    SignRead(sign, u);
  }

  /** `parseInt` of white space, an optional sign, `0x` or `0X`, a run of
      hexadecimal digits and any text that does not continue the run is the
      signed hexadecimal value of the run. */
  lemma ParseIntOfHex(ws: string, sign: string, prefix: string, hs: string, rest: string)
    requires forall i :: 0 <= i < |ws| ==> IsWhiteSpace(ws[i])
    requires sign == "" || sign == "+" || sign == "-"
    requires prefix == "0x" || prefix == "0X"
    requires hs != "" && AllHex(hs)
    requires rest == "" || !IsHexDigit(rest[0])
    ensures ParseInt(ws + sign + prefix + hs + rest) ==
      Some(if sign == "-" then -(DigitsValue(hs, 16) as int) else DigitsValue(hs, 16))
  {
    var u := prefix + (hs + rest);
    Assoc(ws + sign + prefix, hs, rest);
    Assoc(ws + sign, prefix, hs + rest);
    Assoc(ws, sign, u);
    SpacesIgnored(ws, sign + u);
    HexMagnitude(prefix, hs, rest);
    SignRead(sign, u);
  }

  function DigitChar(d: nat): (c: char)
    requires d < 10
    ensures IsDigit(c) && RadixDigitValue(c) == d
  {
    ('0' as nat + d) as char
  }

  /** `n.toString()` for a non-negative integer: its decimal digits with no
      leading zero. */
  function NatToString(n: nat): (s: string)
    ensures |s| > 0
    ensures forall i :: 0 <= i < |s| ==> IsDigit(s[i])
    ensures |s| > 1 ==> s[0] != '0'
    ensures n < 10 <==> |s| == 1
  {
    if n < 10 then [DigitChar(n)]
    else NatToString(n / 10) + [DigitChar(n % 10)]
  }

  /** Reading the decimal digits of `n` gives back `n`. */
  lemma {:induction false} DecimalValueOfNatToString(n: nat)
    ensures DigitsValue(NatToString(n), 10) == n
  {
    if n >= 10 {
      var s := NatToString(n);
      assert s[..|s| - 1] == NatToString(n / 10);
      DecimalValueOfNatToString(n / 10);
    }
  }

  /** A decimal run other than a lone `0` stops at an `x`. */
  lemma ParseIntStopsAtX()
    ensures ParseInt(" 12x") == Some(12)
  {
    assert " 12x" == " " + "" + "12" + "x";
    ParseIntOfDecimal(" ", "", "12", "x");
    assert DigitsValue("12", 10) == 12 by {
      assert "12"[..1] == "1";
      assert DigitsValue("1", 10) == 1 by { assert "1"[..0] == ""; }
    }
  }

  /** `0x` without a hexadecimal digit, a bare sign and a doubled sign
      read no digit. */
  lemma ParseIntNaNSamples()
    ensures ParseInt("0x").None? && ParseInt("-").None? && ParseInt("+-1").None?
  {
    ParseIntNaN("0x");
    ParseIntNaN("-");
    ParseIntNaN("+-1");
  }

  /** `parseInt` of a run of decimal digits is its decimal value. */
  lemma ParseIntOfDigits(ds: string)
    requires ds != "" && AllDecimal(ds)
    ensures ParseInt(ds) == Some(DigitsValue(ds, 10))
  {
    assert "" + "" + ds + "" == ds;
    ParseIntOfDecimal("", "", ds, "");
  }

  /** `parseInt(String(n)) === n` for every non-negative integer `n`. */
  lemma ParseIntOfNatToString(n: nat)
    ensures ParseInt(NatToString(n)) == Some(n)
  {
    DecimalValueOfNatToString(n);
    ParseIntOfDigits(NatToString(n));
  }
}
