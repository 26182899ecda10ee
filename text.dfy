/**
 * String and list helpers that the application takes from the JavaScript
 * runtime: `startsWith`, `includes`, `trim`, `toLowerCase`, number-to-string
 * conversion, `parseInt`, `Number(...)`, `padStart`, `split(...).pop()`,
 * `filter(x => x !== v)` and the first-occurrence order of `new Set(...)`.
 * Strings are sequences of Unicode scalar values.
 */
module Text {

  // ---------------------------------------------------------------------
  // Prefixes and substrings
  // ---------------------------------------------------------------------

  /** `s.startsWith(p)` */
  predicate StartsWith(s: string, p: string) {
    p <= s
  }

  /** `s.includes(sub)`: some window of `s` equals `sub`. */
  predicate Contains(s: string, sub: string)
    decreases |s|
  {
    sub <= s || (|s| > 0 && Contains(s[1..], sub))
  }

  /** A window of `s` starting at `i` equals `sub`. */
  ghost predicate OccursAt(s: string, sub: string, i: int) {
    0 <= i && i + |sub| <= |s| && s[i..i + |sub|] == sub
  }

  /** An occurrence at position `i` is found by the search. */
  lemma {:induction false} OccursAtContains(s: string, sub: string, i: int)
    requires OccursAt(s, sub, i)
    ensures Contains(s, sub)
    decreases i
  {
    if i > 0 {
      assert s[1..][i - 1..i - 1 + |sub|] == s[i..i + |sub|];
      OccursAtContains(s[1..], sub, i - 1);
    }
  }

  /** `Contains` agrees with the window definition of substring search. */
  lemma {:induction false} ContainsIff(s: string, sub: string)
    ensures Contains(s, sub) <==> exists i :: OccursAt(s, sub, i)
    decreases |s|
  {
    if sub <= s {
      assert OccursAt(s, sub, 0);
    } else if |s| > 0 && Contains(s[1..], sub) {
      ContainsIff(s[1..], sub);
      var i :| OccursAt(s[1..], sub, i);
      assert s[i + 1..i + 1 + |sub|] == s[1..][i..i + |sub|];
      assert OccursAt(s, sub, i + 1);
    }
    forall i | OccursAt(s, sub, i) ensures Contains(s, sub) {
      OccursAtContains(s, sub, i);
    }
  }

  /** Every string contains itself, and every string contains the empty string. */
  lemma ContainsReflexiveAndEmpty(s: string)
    ensures Contains(s, s) && Contains(s, "")
  {
  }

  /** A string lacking a character of `sub` cannot contain `sub`. */
  lemma AbsentCharNotContained(s: string, sub: string, c: char)
    requires c in sub && c !in s
    ensures !Contains(s, sub)
  {
    ContainsIff(s, sub);
  }

  /** A string contained in a suffix is contained in the whole string. */
  lemma {:induction false} ContainsInSuffix(s: string, sub: string, k: nat)
    requires k <= |s| && Contains(s[k..], sub)
    ensures Contains(s, sub)
    decreases k
  {
    if k > 0 {
      assert s[k..] == s[1..][k - 1..];
      ContainsInSuffix(s[1..], sub, k - 1);
    }
  }

  /** A superstring of a container of `sub` also contains `sub`. */
  lemma {:induction false} ContainsInConcat(a: string, s: string, b: string, sub: string)
    requires Contains(s, sub)
    ensures Contains(a + s + b, sub)
  {
    ContainsIff(s, sub);
    var i :| OccursAt(s, sub, i);
    assert (a + s + b)[|a| + i..|a| + i + |sub|] == s[i..i + |sub|];
    assert OccursAt(a + s + b, sub, |a| + i);
    ContainsIff(a + s + b, sub);
  }

  // ---------------------------------------------------------------------
  // Whitespace and trim
  // ---------------------------------------------------------------------

  /** The white-space and line-terminator characters that `String.prototype.trim` removes. */
  predicate IsSpace(c: char) {
    c == '\U{0009}' || c == '\U{000A}' || c == '\U{000B}' || c == '\U{000C}' || c == '\U{000D}' ||
    c == ' ' || c == '\U{00A0}' || c == '\U{1680}' || ('\U{2000}' <= c <= '\U{200A}') ||
    c == '\U{2028}' || c == '\U{2029}' || c == '\U{202F}' || c == '\U{205F}' || c == '\U{3000}' ||
    c == '\U{FEFF}'
  }

  function TrimStart(s: string): (r: string)
    decreases |s|
  {
    if |s| > 0 && IsSpace(s[0]) then TrimStart(s[1..]) else s
  }

  function TrimEnd(s: string): (r: string)
    decreases |s|
  {
    if |s| > 0 && IsSpace(s[|s| - 1]) then TrimEnd(s[..|s| - 1]) else s
  }

  /** `s.trim()` */
  function Trim(s: string): string {
    TrimEnd(TrimStart(s))
  }

  /** No white space at either end. */
  predicate IsTrimmed(s: string) {
    |s| == 0 || (!IsSpace(s[0]) && !IsSpace(s[|s| - 1]))
  }

  lemma {:induction false} TrimStartShape(s: string)
    ensures |TrimStart(s)| <= |s| && s[|s| - |TrimStart(s)|..] == TrimStart(s)
    ensures |TrimStart(s)| > 0 ==> !IsSpace(TrimStart(s)[0])
    ensures forall k :: 0 <= k < |s| - |TrimStart(s)| ==> IsSpace(s[k])
    decreases |s|
  {
    if |s| > 0 && IsSpace(s[0]) {
      TrimStartShape(s[1..]);
      forall k | 0 <= k < |s| - |TrimStart(s)| ensures IsSpace(s[k]) {
        if k > 0 { assert s[k] == s[1..][k - 1]; }
      }
    }
  }

  lemma {:induction false} TrimEndShape(s: string)
    ensures |TrimEnd(s)| <= |s| && s[..|TrimEnd(s)|] == TrimEnd(s)
    ensures |TrimEnd(s)| > 0 ==> !IsSpace(TrimEnd(s)[|TrimEnd(s)| - 1])
    ensures forall k :: |TrimEnd(s)| <= k < |s| ==> IsSpace(s[k])
    decreases |s|
  {
    if |s| > 0 && IsSpace(s[|s| - 1]) {
      var p := s[..|s| - 1];
      TrimEndShape(p);
      assert s[..|TrimEnd(s)|] == p[..|TrimEnd(p)|];
      forall k | |TrimEnd(s)| <= k < |s| ensures IsSpace(s[k]) {
        if k < |s| - 1 { assert s[k] == p[k]; }
      }
    }
  }

  /** Trimming leaves a string without white space at either end. */
  lemma TrimIsTrimmed(s: string)
    ensures IsTrimmed(Trim(s))
  {
    var t := TrimStart(s);
    TrimStartShape(s);
    TrimEndShape(t);
    if |TrimEnd(t)| > 0 {
      assert TrimEnd(t)[0] == t[0];
    }
  }

  lemma {:induction false} TrimStartOfTrimmed(s: string)
    requires |s| == 0 || !IsSpace(s[0])
    ensures TrimStart(s) == s
  {
  }

  lemma {:induction false} TrimEndOfTrimmed(s: string)
    requires |s| == 0 || !IsSpace(s[|s| - 1])
    ensures TrimEnd(s) == s
  {
  }

  /** A string without white space at its ends is its own trim. */
  lemma TrimOfTrimmed(s: string)
    requires IsTrimmed(s)
    ensures Trim(s) == s
  {
    TrimStartOfTrimmed(s);
    TrimEndOfTrimmed(s);
  }

  /** Trimming twice is trimming once. */
  lemma TrimIdempotent(s: string)
    ensures Trim(Trim(s)) == Trim(s)
  {
    TrimIsTrimmed(s);
    TrimOfTrimmed(Trim(s));
  }

  // ---------------------------------------------------------------------
  // Case
  // ---------------------------------------------------------------------

  /** `toLowerCase` restricted to the Latin letters A-Z; other characters are kept. */
  function LowerChar(c: char): char {
    if 'A' <= c <= 'Z' then (c as int + 32) as char else c
  }

  function Lower(s: string): (r: string)
    ensures |r| == |s|
    ensures forall i :: 0 <= i < |s| ==> r[i] == LowerChar(s[i])
  {
    seq(|s|, i requires 0 <= i < |s| => LowerChar(s[i]))
  }

  // ---------------------------------------------------------------------
  // Numbers
  // ---------------------------------------------------------------------

  predicate IsDigit(c: char) {
    '0' <= c <= '9'
  }

  function DigitValue(c: char): nat
    requires IsDigit(c)
  {
    c as int - '0' as int
  }

  function DigitChar(d: nat): char
    requires d < 10
  {
    ('0' as int + d) as char
  }

  predicate AllDigits(s: string) {
    forall i :: 0 <= i < |s| ==> IsDigit(s[i])
  }

  /** A character's value as a digit of base 16 or less: 0-9, then a-f or
      A-F for 10 to 15, and 16, a digit of no such base, for the rest. */
  function RadixDigit(c: char): (r: nat)
    ensures r <= 16
    ensures r < 10 <==> IsDigit(c)
    ensures IsDigit(c) ==> r == DigitValue(c)
  {
    if IsDigit(c) then DigitValue(c)
    else if 'a' <= c <= 'f' then c as int - 'a' as int + 10
    else if 'A' <= c <= 'F' then c as int - 'A' as int + 10
    else 16
  }

  predicate AllRadixDigits(s: string, radix: nat) {
    forall i :: 0 <= i < |s| ==> RadixDigit(s[i]) < radix
  }

  /** The value of a string of digits of base `radix`, the most significant first. */
  function RadixValue(s: string, radix: nat): nat
    requires AllRadixDigits(s, radix)
    decreases |s|
  {
    if |s| == 0 then 0
    else
      PrefixRadixDigits(s, radix);
      var v := RadixValue(s[..|s| - 1], radix);
      ProductOfNats(v, radix);
      v * radix + RadixDigit(s[|s| - 1])
  }

  lemma PrefixRadixDigits(s: string, radix: nat)
    requires |s| > 0 && AllRadixDigits(s, radix)
    ensures AllRadixDigits(s[..|s| - 1], radix)
  {
  }

  lemma ProductOfNats(a: nat, b: nat)
    ensures a * b >= 0
  {
  }

  /** The value of a string of decimal digits. */
  function DigitsValue(s: string): nat
    requires AllDigits(s)
  {
    RadixValue(s, 10)
  }

  /** `String(n)` for a non-negative integer. */
  function NatToString(n: nat): string
    decreases n
  {
    if n < 10 then [DigitChar(n)] else NatToString(n / 10) + [DigitChar(n % 10)]
  }

  /** `String(i)` for an integer. */
  function IntToString(i: int): string {
    if i < 0 then "-" + NatToString(-i) else NatToString(i)
  }

  /** The decimal rendering is a non-empty digit string that reads back as `n`. */
  lemma {:induction false} NatToStringDigits(n: nat)
    ensures |NatToString(n)| > 0 && AllDigits(NatToString(n))
    ensures DigitsValue(NatToString(n)) == n
    ensures NatToString(n)[0] == '0' ==> n == 0
    decreases n
  {
    var s := NatToString(n);
    if n >= 10 {
      NatToStringDigits(n / 10);
      assert s[..|s| - 1] == NatToString(n / 10);
      assert RadixDigit(s[|s| - 1]) == n % 10;
    } else {
      assert s[..0] == [];
      assert RadixValue(s, 10) == RadixValue(s[..0], 10) * 10 + RadixDigit(s[0]);
    }
  }

  /** An optional leading sign: whether it is a minus, and the text after it. */
  function SplitSign(t: string): (bool, string) {
    if |t| > 0 && (t[0] == '-' || t[0] == '+') then (t[0] == '-', t[1..]) else (false, t)
  }

  /** The longest prefix of digits of base `radix`, the run `parseInt` reads. */
  function RadixPrefix(s: string, radix: nat): (r: string)
    ensures r <= s && AllRadixDigits(r, radix)
    ensures |r| < |s| ==> RadixDigit(s[|r|]) >= radix
    decreases |s|
  {
    if |s| > 0 && RadixDigit(s[0]) < radix then [s[0]] + RadixPrefix(s[1..], radix) else ""
  }

  /** The longest run of digits of base `radix` at the start of `s`, read
      as a number, or `None` when there is none. */
  function RadixRun(s: string, radix: nat): Option<nat> {
    var digits := RadixPrefix(s, radix);
    if |digits| == 0 then None else Some(RadixValue(digits, radix))
  }

  /** What `parseInt` reads after the sign: a `0x` or `0X` makes the base 16,
      otherwise it is 10. */
  function UnsignedParse(body: string): Option<nat> {
    if |body| >= 2 && body[0] == '0' && (body[1] == 'x' || body[1] == 'X') then RadixRun(body[2..], 16)
    else RadixRun(body, 10)
  }

  /** `parseInt(s)` with no radix; `None` is NaN. Leading white space and one
      sign are skipped; a `0x` or `0X` after them makes the base 16, otherwise
      it is 10; then the longest run of digits of that base is read, and an
      empty run is NaN. */
  function ParseInt(s: string): (r: Option<int>) {
    var (neg, body) := SplitSign(TrimStart(s));
    WithSign(neg, UnsignedParse(body))
  }

  /** A read magnitude with its sign applied; NaN stays NaN. */
  function WithSign(neg: bool, v: Option<nat>): Option<int> {
    match v
    case None => None
    case Some(n) => Some(if neg then -(n as int) else n)
  }

  lemma {:induction false} RadixPrefixOfDigits(s: string, radix: nat)
    requires AllRadixDigits(s, radix)
    ensures RadixPrefix(s, radix) == s
    decreases |s|
  {
    if |s| > 0 {
      RadixPrefixOfDigits(s[1..], radix);
    }
  }

  /** Reading back a written integer gives the integer (`parseInt(String(i)) == i`). */
  lemma ParseIntOfIntToString(i: int)
    ensures ParseInt(IntToString(i)) == Some(i)
  {
    var n: nat := if i < 0 then -i else i;
    NatToStringDigits(n);
    RadixPrefixOfDigits(NatToString(n), 10);
    if i < 0 {
      assert ("-" + NatToString(n))[1..] == NatToString(n);
    } else {
      assert !IsSpace(NatToString(n)[0]);
    }
  }

  /** `parseInt` of a string whose first non-blank character is not a digit or sign is NaN. */
  lemma ParseIntOfNonNumber(s: string)
    requires |s| > 0 && !IsSpace(s[0]) && !IsDigit(s[0]) && s[0] != '-' && s[0] != '+'
    ensures ParseInt(s) == None
  {
  }

  /** The sign is read first and applied to whatever follows it. */
  lemma ParseIntSigned(sign: string, body: string)
    requires sign == "" || sign == "-" || sign == "+"
    requires |body| > 0 && body[0] != '-' && body[0] != '+' && !IsSpace(body[0])
    ensures ParseInt(sign + body) == WithSign(sign == "-", UnsignedParse(body))
  {
    var s := sign + body;
    assert !IsSpace(s[0]);
    TrimStartOfTrimmed(s);
    if sign == "" {
      assert s == body;
    } else {
      assert s[0] == sign[0] && s[1..] == body;
    }
  }

  /** After an optional sign, `parseInt` reads a `0x` or `0X` literal as the
      hexadecimal digits that follow it, as many as there are, and gives NaN
      when none follows. */
  lemma ParseIntHex(sign: string, x: char, rest: string)
    requires sign == "" || sign == "-" || sign == "+"
    requires x == 'x' || x == 'X'
    ensures ParseInt(sign + ['0', x] + rest) == WithSign(sign == "-", RadixRun(rest, 16))
  {
    var body := ['0', x] + rest;
    assert sign + ['0', x] + rest == sign + body;
    ParseIntSigned(sign, body);
    assert body[2..] == rest;
  }

  /** The value of a two-digit string. */
  lemma TwoDigitRadixValue(s: string, radix: nat)
    requires |s| == 2 && AllRadixDigits(s, radix)
    ensures RadixValue(s, radix) == RadixDigit(s[0]) * radix + RadixDigit(s[1])
  {
    var p := s[..1];
    assert p[..0] == [] && p[0] == s[0];
    assert RadixValue(p, radix) == RadixValue(p[..0], radix) * radix + RadixDigit(p[0]);
  }

  /** So `parseInt("0x10")` is 16 and `parseInt("0x")` is NaN. */
  lemma ParseIntHexForms()
    ensures ParseInt("0x10") == Some(16)
    ensures ParseInt("0x") == None
  {
    assert ParseInt("0x10") == Some(16) by {
      ParseIntHex("", 'x', "10");
      assert "" + ['0', 'x'] + "10" == "0x10";
      assert RadixRun("10", 16) == Some(16) by {
        RadixPrefixOfDigits("10", 16);
        TwoDigitRadixValue("10", 16);
      }
    }
    assert ParseInt("0x") == None by {
      ParseIntHex("", 'x', "");
      assert "" + ['0', 'x'] + "" == "0x";
    }
  }

  /** `parseInt("12px")` stops at the `p`. */
  lemma ParseIntStopsAtLetter()
    ensures ParseInt("12px") == Some(12)
  {
    assert RadixRun("12px", 10) == Some(12) by {
      assert RadixPrefix("12px", 10) == "12" by {
        assert "12px"[1..] == "2px" && "2px"[1..] == "px";
      }
      TwoDigitRadixValue("12", 10);
    }
  }

  /** A JavaScript number: NaN, an infinity with its sign, or a finite value.
      The value is exact: rounding to the nearest double is not modelled. */
  datatype JsNumber = NaN | Infinity(negative: bool) | Finite(value: real)

  /** Unary minus. */
  function Negated(x: JsNumber): JsNumber {
    match x
    case NaN => NaN
    case Infinity(negative) => Infinity(!negative)
    case Finite(v) => Finite(-v)
  }

  function Pow10(e: nat): (r: nat)
    ensures r > 0
  {
    if e == 0 then 1 else 10 * Pow10(e - 1)
  }

  /** `x` times ten to the power `e`. */
  function ScaleBy10(x: real, e: int): real
    decreases if e >= 0 then e else -e
  {
    if e == 0 then x else if e > 0 then ScaleBy10(x, e - 1) * 10.0 else ScaleBy10(x, e + 1) / 10.0
  }

  /** The position of the first character of `s` that is in `cs`, or `|s|`. */
  function FirstIndex(s: string, cs: set<char>): (r: nat)
    ensures r <= |s|
    ensures forall j :: 0 <= j < r ==> s[j] !in cs
    ensures r < |s| ==> s[r] in cs
    decreases |s|
  {
    if |s| == 0 || s[0] in cs then 0 else 1 + FirstIndex(s[1..], cs)
  }

  /** The signed integer after the `e` of a decimal literal. */
  function ExponentValue(x: string): Option<int> {
    var (neg, digits) := SplitSign(x);
    if |digits| > 0 && AllDigits(digits) then
      var v: int := DigitsValue(digits);
      Some(if neg then -v else v)
    else None
  }

  /** The digits of a decimal literal before its exponent: digits with at
      most one `.` among them and at least one digit. The result is the
      number all the digits spell and how many of them follow the point. */
  function Mantissa(m: string): Option<(nat, nat)> {
    var dot := FirstIndex(m, {'.'});
    var whole := m[..dot];
    var fraction := if dot < |m| then m[dot + 1..] else "";
    if AllDigits(whole) && AllDigits(fraction) && |whole| + |fraction| > 0 then
      Some((DigitsValue(whole) * Pow10(|fraction|) + DigitsValue(fraction), |fraction|))
    else None
  }

  /** An unsigned decimal literal: `Infinity`, or a mantissa optionally
      followed by `e` or `E` and a signed integer. Anything else is NaN. */
  function UnsignedDecimal(u: string): JsNumber {
    if u == "Infinity" then Infinity(false)
    else
      var k := FirstIndex(u, {'e', 'E'});
      var mantissa := Mantissa(u[..k]);
      var exponent := if k < |u| then ExponentValue(u[k + 1..]) else Some(0);
      DecimalNumber(mantissa, exponent)
  }

  /** The number a mantissa and an exponent denote: the mantissa's digits
      scaled by ten to the exponent less the digits after the point; NaN
      when either part is malformed. */
  function DecimalNumber(mantissa: Option<(nat, nat)>, exponent: Option<int>): JsNumber {
    if mantissa.Some? && exponent.Some? then
      Finite(ScaleBy10(mantissa.value.0 as real, exponent.value - mantissa.value.1))
    else NaN
  }

  /** The base a `0x`, `0o` or `0b` prefix announces, in either case; 0 after
      any other character. */
  function PrefixRadix(c: char): nat {
    if c == 'x' || c == 'X' then 16
    else if c == 'o' || c == 'O' then 8
    else if c == 'b' || c == 'B' then 2
    else 0
  }

  /** `Number(s)`, the conversion loose equality applies to a string. After
      trimming, a blank string is 0; `0x`, `0o` or `0b` must be followed by
      one or more digits of that base and nothing else; otherwise it is an
      optional sign and an unsigned decimal literal. Anything else is NaN. */
  function StringToNumber(s: string): JsNumber {
    var t := Trim(s);
    if |t| == 0 then Finite(0.0)
    else if |t| >= 2 && t[0] == '0' && PrefixRadix(t[1]) > 0 then
      var digits := t[2..];
      if |digits| > 0 && AllRadixDigits(digits, PrefixRadix(t[1])) then
        Finite(RadixValue(digits, PrefixRadix(t[1])) as real)
      else NaN
    else
      var (neg, u) := SplitSign(t);
      if neg then Negated(UnsignedDecimal(u)) else UnsignedDecimal(u)
  }

  /** The first character of `s` in `cs` is the one at `k`. */
  lemma FirstIndexAt(s: string, cs: set<char>, k: nat)
    requires k <= |s|
    requires forall j :: 0 <= j < k ==> s[j] !in cs
    requires k < |s| ==> s[k] in cs
    ensures FirstIndex(s, cs) == k
  {
  }

  /** Digits, a point and more digits spell the number of all the digits,
      with as many after the point as the fraction has; the point may be
      left out when no digits follow it. */
  lemma MantissaForm(whole: string, dot: string, fraction: string)
    requires AllDigits(whole) && AllDigits(fraction) && |whole| + |fraction| > 0
    requires dot == "." || (dot == "" && fraction == "")
    ensures var r := Mantissa(whole + dot + fraction);
      r.Some? && r.value.0 == DigitsValue(whole) * Pow10(|fraction|) + DigitsValue(fraction) &&
      r.value.1 == |fraction|
  {
    if dot == "." {
      MantissaWithPoint(whole, fraction);
    } else {
      assert whole + dot + fraction == whole;
      FirstIndexAt(whole, {'.'}, |whole|);
      assert whole[..|whole|] == whole;
    }
  }

  lemma MantissaWithPoint(whole: string, fraction: string)
    requires AllDigits(whole) && AllDigits(fraction) && |whole| + |fraction| > 0
    ensures var r := Mantissa(whole + "." + fraction);
      r.Some? && r.value.0 == DigitsValue(whole) * Pow10(|fraction|) + DigitsValue(fraction) &&
      r.value.1 == |fraction|
  {
    var m := whole + "." + fraction;
    assert forall j :: 0 <= j < |whole| ==> m[j] == whole[j];
    FirstIndexAt(m, {'.'}, |whole|);
    assert m[..|whole|] == whole;
    assert |whole| < |m| && m[|whole| + 1..] == fraction;
    assert AllDigits(m[..|whole|]) && AllDigits(m[|whole| + 1..]);
  }

  /** A mantissa followed by an optional exponent `e` is its number scaled
      by ten to the power of `e` less the digits after the point. */
  lemma UnsignedDecimalForm(m: string, exp: string, e: int)
    requires m != "" && m[0] != 'I' && forall j :: 0 <= j < |m| ==> m[j] !in {'e', 'E'}
    requires exp == "" ==> e == 0
    requires exp != "" ==> |exp| > 1 && exp[0] in {'e', 'E'} && ExponentValue(exp[1..]) == Some(e)
    requires Mantissa(m).Some?
    ensures UnsignedDecimal(m + exp) == DecimalNumber(Mantissa(m), Some(e))
  {
    var u := m + exp;
    assert u[0] == m[0];
    assert u != "Infinity";
    assert forall j :: 0 <= j < |m| ==> u[j] == m[j];
    FirstIndexAt(u, {'e', 'E'}, |m|);
    assert u[..|m|] == m;
    if exp == "" {
      assert |u| == |m|;
    } else {
      assert u[|m|] == exp[0];
      assert u[|m| + 1..] == exp[1..];
    }
  }

  /** After an optional sign, a string with no blanks at its ends that does
      not start with a base prefix converts as an unsigned decimal literal,
      negated after a minus. */
  lemma StringToNumberSigned(sign: string, u: string)
    requires sign == "" || sign == "-" || sign == "+"
    requires |u| > 0 && u[0] != '-' && u[0] != '+' && !IsSpace(u[0]) && !IsSpace(u[|u| - 1])
    requires !(|u| >= 2 && u[0] == '0' && PrefixRadix(u[1]) > 0)
    ensures StringToNumber(sign + u) == if sign == "-" then Negated(UnsignedDecimal(u)) else UnsignedDecimal(u)
  {
    var s := sign + u;
    assert s[|s| - 1] == u[|u| - 1];
    TrimOfTrimmed(s);
    if sign == "" {
      assert s == u;
    } else {
      assert s[0] == sign[0] && s[1..] == u;
    }
    assert SplitSign(s).0 == (sign == "-") && SplitSign(s).1 == u;
    StringToNumberUnsigned(s);
  }

  /** Text with no blanks at its ends and no base prefix converts by its
      sign and the unsigned literal after it. */
  lemma StringToNumberUnsigned(t: string)
    requires Trim(t) == t && |t| > 0 && !(|t| >= 2 && t[0] == '0' && PrefixRadix(t[1]) > 0)
    ensures StringToNumber(t) ==
      if SplitSign(t).0 then Negated(UnsignedDecimal(SplitSign(t).1)) else UnsignedDecimal(SplitSign(t).1)
  {
  }

  /** A written decimal literal without sign or blanks converts to its
      mantissa scaled by its exponent. */
  lemma DecimalText(m: string, exp: string, e: int)
    requires |m| > 0 && forall j :: 0 <= j < |m| ==> IsDigit(m[j]) || m[j] == '.'
    requires Mantissa(m).Some?
    requires exp == "" ==> e == 0
    requires exp != "" ==> |exp| > 1 && exp[0] in {'e', 'E'} && ExponentValue(exp[1..]) == Some(e)
    requires exp != "" ==> IsDigit(exp[|exp| - 1])
    ensures StringToNumber(m + exp) == DecimalNumber(Mantissa(m), Some(e))
  {
    assert forall j :: 0 <= j < |m| ==> m[j] !in {'e', 'E'} by {
      forall j | 0 <= j < |m| ensures m[j] !in {'e', 'E'} {
        assert IsDigit(m[j]) || m[j] == '.';
      }
    }
    UnsignedDecimalForm(m, exp, e);
    DecimalTextEnds(m, exp);
    StringToNumberUnprefixed(m + exp);
  }

  lemma DecimalTextEnds(m: string, exp: string)
    requires |m| > 0 && forall j :: 0 <= j < |m| ==> IsDigit(m[j]) || m[j] == '.'
    requires exp != "" ==> |exp| > 1 && exp[0] in {'e', 'E'} && IsDigit(exp[|exp| - 1])
    ensures var u := m + exp;
      |u| > 0 && (IsDigit(u[0]) || u[0] == '.') && (IsDigit(u[|u| - 1]) || u[|u| - 1] == '.') &&
      (|u| >= 2 ==> PrefixRadix(u[1]) == 0)
  {
    var u := m + exp;
    assert u[0] == m[0];
    if |u| >= 2 {
      assert u[1] == if |m| >= 2 then m[1] else exp[0];
    }
    assert u[|u| - 1] == if exp == "" then m[|m| - 1] else exp[|exp| - 1];
  }

  /** A string that starts with a digit or a point and does not start with
      a base prefix converts as an unsigned decimal literal. */
  lemma StringToNumberUnprefixed(u: string)
    requires |u| > 0 && (IsDigit(u[0]) || u[0] == '.') && (IsDigit(u[|u| - 1]) || u[|u| - 1] == '.')
    requires |u| >= 2 ==> PrefixRadix(u[1]) == 0
    ensures StringToNumber(u) == UnsignedDecimal(u)
  {
    StringToNumberSigned("", u);
    assert "" + u == u;
  }

  /** The exponent after `e` may be a plain digit string. */
  lemma ExponentOfDigits(ds: string)
    requires |ds| > 0 && AllDigits(ds)
    ensures ExponentValue(ds) == Some(DigitsValue(ds))
  {
    assert IsDigit(ds[0]);
  }

  /** `0x`, `0o` or `0b` followed by digits of that base converts to their value. */
  lemma StringToNumberRadix(x: char, digits: string)
    requires PrefixRadix(x) > 0 && |digits| > 0 && AllRadixDigits(digits, PrefixRadix(x))
    ensures StringToNumber(['0', x] + digits) == Finite(RadixValue(digits, PrefixRadix(x)) as real)
  {
    var s := ['0', x] + digits;
    assert PrefixRadix(x) <= 16;
    RadixDigitNotSpace(digits, PrefixRadix(x), |digits| - 1);
    assert s[|s| - 1] == digits[|digits| - 1];
    TrimOfTrimmed(s);
    StringToNumberPrefixed(s, x, digits);
  }

  lemma RadixDigitNotSpace(s: string, radix: nat, k: nat)
    requires AllRadixDigits(s, radix) && radix <= 16 && k < |s|
    ensures !IsSpace(s[k])
  {
    assert RadixDigit(s[k]) < 16;
  }

  /** Text with no blanks at its ends that starts with a base prefix is read
      in that base. */
  lemma StringToNumberPrefixed(t: string, x: char, digits: string)
    requires t == ['0', x] + digits && Trim(t) == t && PrefixRadix(x) > 0
    ensures StringToNumber(t) ==
      if |digits| > 0 && AllRadixDigits(digits, PrefixRadix(x)) then
        Finite(RadixValue(digits, PrefixRadix(x)) as real)
      else NaN
  {
    assert t[0] == '0' && t[1] == x && t[2..] == digits;
  }

  /** Digits followed by `.0` convert to the digits' value. */
  lemma PointZeroOfDigits(ds: string)
    requires |ds| > 0 && AllDigits(ds)
    ensures StringToNumber(ds + ".0") == Finite(DigitsValue(ds) as real)
  {
    var m := ds + ".0";
    var v := DigitsValue(ds);
    assert AllDigits("0") && DigitsValue("0") == 0 by { assert "0"[..0] == ""; }
    MantissaForm(ds, ".", "0");
    assert ds + "." + "0" == m;
    assert Pow10(1) == 10;
    forall j | 0 <= j < |m| ensures IsDigit(m[j]) || m[j] == '.' {
      if j < |ds| { assert m[j] == ds[j]; }
    }
    assert m + "" == m;
    DecimalText(m, "", 0);
    var mt := Mantissa(m);
    assert mt.Some? && mt.value.0 == v * 10 && mt.value.1 == 1;
    assert ScaleBy10((v * 10) as real, 0 - 1) == v as real;
    assert DecimalNumber(mt, Some(0)) == Finite(ScaleBy10(mt.value.0 as real, 0 - mt.value.1));
  }

  /** Digits followed by a bare `.` convert to the digits' value. */
  lemma TrailingPointOfDigits(ds: string)
    requires |ds| > 0 && AllDigits(ds)
    ensures StringToNumber(ds + ".") == Finite(DigitsValue(ds) as real)
  {
    var m := ds + ".";
    var v := DigitsValue(ds);
    assert Pow10(0) == 1 && DigitsValue("") == 0;
    MantissaForm(ds, ".", "");
    assert ds + "." + "" == m;
    forall j | 0 <= j < |m| ensures IsDigit(m[j]) || m[j] == '.' {
      if j < |ds| { assert m[j] == ds[j]; }
    }
    assert m + "" == m;
    DecimalText(m, "", 0);
    var mt := Mantissa(m);
    assert mt.Some? && mt.value.0 == v && mt.value.1 == 0;
    assert ScaleBy10(v as real, 0 - 0) == v as real;
    assert DecimalNumber(mt, Some(0)) == Finite(ScaleBy10(mt.value.0 as real, 0 - mt.value.1));
  }

  /** Digits followed by `e0` convert to the digits' value. */
  lemma ExponentZeroOfDigits(ds: string)
    requires |ds| > 0 && AllDigits(ds)
    ensures StringToNumber(ds + "e0") == Finite(DigitsValue(ds) as real)
  {
    var v := DigitsValue(ds);
    assert Pow10(0) == 1 && DigitsValue("") == 0;
    MantissaForm(ds, "", "");
    assert ds + "" + "" == ds;
    assert "e0"[1..] == "0";
    ExponentOfDigits("0");
    assert DigitsValue("0") == 0 by { assert "0"[..0] == ""; }
    DecimalText(ds, "e0", 0);
    var mt := Mantissa(ds);
    assert mt.Some? && mt.value.0 == v && mt.value.1 == 0;
    assert ScaleBy10(v as real, 0 - 0) == v as real;
    assert DecimalNumber(mt, Some(0)) == Finite(ScaleBy10(mt.value.0 as real, 0 - mt.value.1));
  }

  /** `.` then digits then `e` and the count of those digits converts to the
      digits' value. */
  lemma LeadingPointOfDigits(ds: string, ks: string)
    requires |ds| > 0 && AllDigits(ds) && |ks| > 0 && AllDigits(ks) && DigitsValue(ks) == |ds|
    ensures StringToNumber("." + ds + "e" + ks) == Finite(DigitsValue(ds) as real)
  {
    var m := "." + ds;
    var es := "e" + ks;
    var v := DigitsValue(ds);
    MantissaForm("", ".", ds);
    assert "" + "." + ds == m;
    assert DigitsValue("") == 0 && Pow10(|ds|) > 0;
    forall j | 0 <= j < |m| ensures IsDigit(m[j]) || m[j] == '.' {
      if j > 0 { assert m[j] == ds[j - 1]; }
    }
    assert es[0] == 'e' && es[1..] == ks;
    assert es[|es| - 1] == ks[|ks| - 1];
    ExponentOfDigits(ks);
    assert m + es == "." + ds + "e" + ks;
    DecimalText(m, es, |ds|);
    var mt := Mantissa(m);
    assert mt.Some? && mt.value.0 == v && mt.value.1 == |ds|;
    assert ScaleBy10(v as real, |ds| - |ds|) == v as real;
    assert DecimalNumber(mt, Some(|ds|)) == Finite(ScaleBy10(mt.value.0 as real, |ds| - mt.value.1));
  }

  /** A digit string is an unsigned decimal literal of its own value. */
  lemma UnsignedDecimalOfDigits(u: string)
    requires |u| > 0 && AllDigits(u)
    ensures UnsignedDecimal(u) == Finite(DigitsValue(u) as real)
  {
    assert u != "Infinity" by { assert !IsDigit("Infinity"[0]); }
    assert forall j :: 0 <= j < |u| ==> u[j] !in {'e', 'E'} && u[j] != '.';
    var k := FirstIndex(u, {'e', 'E'});
    assert k == |u| && u[..k] == u;
    var dot := FirstIndex(u, {'.'});
    assert dot == |u| && u[..dot] == u;
  }

  /** A digit string converts to its value. */
  lemma StringToNumberOfDigits(s: string)
    requires |s| > 0 && AllDigits(s)
    ensures StringToNumber(s) == Finite(DigitsValue(s) as real)
  {
    assert IsTrimmed(s);
    TrimOfTrimmed(s);
    if |s| >= 2 {
      assert IsDigit(s[1]);
    }
    UnsignedDecimalOfDigits(s);
  }

  /** `Number(String(i)) == i` */
  lemma StringToNumberOfIntToString(i: int)
    ensures StringToNumber(IntToString(i)) == Finite(i as real)
  {
    var n: nat := if i < 0 then -i else i;
    NatToStringDigits(n);
    var s := IntToString(i);
    if i < 0 {
      assert !IsSpace(s[0]) && !IsSpace(s[|s| - 1]);
      TrimOfTrimmed(s);
      assert s[1..] == NatToString(n);
      UnsignedDecimalOfDigits(NatToString(n));
    } else {
      StringToNumberOfDigits(s);
    }
  }

  /** `s.padStart(2, "0")` */
  function PadStart2(s: string): (r: string)
    ensures |s| >= 2 ==> r == s
    ensures |s| < 2 ==> |r| == 2 && r[2 - |s|..] == s && forall i :: 0 <= i < 2 - |s| ==> r[i] == '0'
  {
    if |s| == 0 then "00" else if |s| == 1 then "0" + s else s
  }

  // ---------------------------------------------------------------------
  // Splitting
  // ---------------------------------------------------------------------

  /** `s.split(sep).pop()`: the text after the last `sep`, or all of `s`. */
  function LastSegment(s: string, sep: char): string
    decreases |s|
  {
    if |s| == 0 then ""
    else if s[|s| - 1] == sep then ""
    else LastSegment(s[..|s| - 1], sep) + [s[|s| - 1]]
  }

  /** The last segment is a suffix free of the separator, and it is either the
      whole string or is preceded by the separator. */
  lemma {:induction false} LastSegmentShape(s: string, sep: char)
    ensures |LastSegment(s, sep)| <= |s|
    ensures s[|s| - |LastSegment(s, sep)|..] == LastSegment(s, sep)
    ensures sep !in LastSegment(s, sep)
    ensures |LastSegment(s, sep)| == |s| || s[|s| - |LastSegment(s, sep)| - 1] == sep
    decreases |s|
  {
    if |s| > 0 && s[|s| - 1] != sep {
      var p := s[..|s| - 1];
      LastSegmentShape(p, sep);
      var r := LastSegment(p, sep);
      assert s[|s| - |r| - 1..] == p[|p| - |r|..] + [s[|s| - 1]];
      if |r| < |p| {
        assert s[|s| - |r| - 2] == p[|p| - |r| - 1];
      }
    }
  }

  // ---------------------------------------------------------------------
  // Lists
  // ---------------------------------------------------------------------

  /** `xs.filter(e => e !== x)` */
  function RemoveAll<T(==)>(xs: seq<T>, x: T): seq<T>
    decreases |xs|
  {
    if |xs| == 0 then []
    else if xs[0] == x then RemoveAll(xs[1..], x)
    else [xs[0]] + RemoveAll(xs[1..], x)
  }

  /** What is kept is exactly the elements other than `x`. */
  lemma {:induction false} RemoveAllMembers<T>(xs: seq<T>, x: T, y: T)
    ensures y in RemoveAll(xs, x) <==> y in xs && y != x
    decreases |xs|
  {
    if |xs| > 0 {
      RemoveAllMembers(xs[1..], x, y);
      assert y in xs <==> y == xs[0] || y in xs[1..];
    }
  }

  /** Removal distributes over concatenation, so the kept elements keep their order. */
  lemma {:induction false} RemoveAllConcat<T>(a: seq<T>, b: seq<T>, x: T)
    ensures RemoveAll(a + b, x) == RemoveAll(a, x) + RemoveAll(b, x)
    decreases |a|
  {
    if |a| > 0 {
      assert (a + b)[1..] == a[1..] + b;
      RemoveAllConcat(a[1..], b, x);
    } else {
      assert a + b == b;
    }
  }

  /** Removing an absent element changes nothing. */
  lemma {:induction false} RemoveAllAbsent<T>(xs: seq<T>, x: T)
    requires x !in xs
    ensures RemoveAll(xs, x) == xs
    decreases |xs|
  {
    if |xs| > 0 {
      RemoveAllAbsent(xs[1..], x);
    }
  }

  /** No element occurs twice. */
  predicate Distinct<T(==)>(xs: seq<T>) {
    forall i, j :: 0 <= i < j < |xs| ==> xs[i] != xs[j]
  }

  /** Removal keeps a duplicate-free list duplicate-free. */
  lemma {:induction false} RemoveAllDistinct<T>(xs: seq<T>, x: T)
    requires Distinct(xs)
    ensures Distinct(RemoveAll(xs, x))
    decreases |xs|
  {
    if |xs| > 0 {
      RemoveAllDistinct(xs[1..], x);
      RemoveAllMembers(xs[1..], x, xs[0]);
      assert xs[0] !in xs[1..];
    }
  }

  /** `[...new Set(xs)]`: the distinct elements in order of first occurrence. */
  function Dedupe<T(==)>(xs: seq<T>): seq<T>
    decreases |xs|
  {
    if |xs| == 0 then []
    else
      var r := Dedupe(xs[..|xs| - 1]);
      if xs[|xs| - 1] in r then r else r + [xs[|xs| - 1]]
  }

  /** Deduplication keeps exactly the elements of the list, each once. */
  lemma {:induction false} DedupeSpec<T>(xs: seq<T>)
    ensures Distinct(Dedupe(xs))
    ensures forall y :: y in Dedupe(xs) <==> y in xs
    decreases |xs|
  {
    if |xs| > 0 {
      var p := xs[..|xs| - 1];
      DedupeSpec(p);
      assert xs == p + [xs[|xs| - 1]];
    }
  }

  /** `xs.filter(Boolean)` over optional strings: drops absent values and "". */
  function PresentNonEmpty(xs: seq<Option<string>>): (r: seq<string>)
    decreases |xs|
  {
    if |xs| == 0 then []
    else if xs[0].Some? && xs[0].value != "" then [xs[0].value] + PresentNonEmpty(xs[1..])
    else PresentNonEmpty(xs[1..])
  }

  lemma {:induction false} PresentNonEmptyMembers(xs: seq<Option<string>>, y: string)
    ensures y in PresentNonEmpty(xs) <==> y != "" && Some(y) in xs
    decreases |xs|
  {
    if |xs| > 0 {
      PresentNonEmptyMembers(xs[1..], y);
      assert Some(y) in xs <==> Some(y) == xs[0] || Some(y) in xs[1..];
    }
  }

  lemma {:induction false} PresentNonEmptyDistinct(xs: seq<Option<string>>)
    requires Distinct(xs)
    ensures Distinct(PresentNonEmpty(xs))
    decreases |xs|
  {
    if |xs| > 0 {
      PresentNonEmptyDistinct(xs[1..]);
      if xs[0].Some? && xs[0].value != "" {
        PresentNonEmptyMembers(xs[1..], xs[0].value);
        assert xs[0] !in xs[1..];
      }
    }
  }

  datatype Option<T> = None | Some(value: T) {
    function GetOr(default: T): T {
      match this
      case Some(v) => v
      case None => default
    }
  }
}
