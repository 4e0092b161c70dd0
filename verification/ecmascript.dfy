/**
  The two ECMAScript built-ins the transforms rely on: the global `parseInt`
  called with no radix (section 19.2.5 of ECMA-262) and `String.prototype.toLowerCase`,
  restricted to ASCII letters.
 */
module EcmaScript {

  /** The numbers `parseInt` can return: an integer, or NaN when no digit was found. */
  datatype Number = Integer(value: int) | NaN

  /** StrWhiteSpaceChar of ECMA-262: WhiteSpace (TAB, VT, FF, ZWNBSP and category Zs) or LineTerminator. */
  predicate IsStrWhiteSpaceChar(c: char) {
    || c == '\t' || c == '\U{000B}' || c == '\U{000C}' || c == '\U{FEFF}'
    || c == ' ' || c == '\U{00A0}' || c == '\U{1680}' || ('\U{2000}' <= c <= '\U{200A}')
    || c == '\U{202F}' || c == '\U{205F}' || c == '\U{3000}'
    || c == '\n' || c == '\r' || c == '\U{2028}' || c == '\U{2029}'
  }

  predicate IsDecimalDigit(c: char) {
    '0' <= c <= '9'
  }

  /** The value of `c` as a digit in any radix up to 36, or 36 when it is no digit at all. */
  function DigitValue(c: char): (d: nat)
    ensures d <= 36
    ensures d < 10 <==> IsDecimalDigit(c)
  {
    if '0' <= c <= '9' then c as int - '0' as int
    else if 'a' <= c <= 'z' then c as int - 'a' as int + 10
    else if 'A' <= c <= 'Z' then c as int - 'A' as int + 10
    else 36
  }

  predicate IsDigit(c: char, radix: nat) {
    DigitValue(c) < radix
  }

  /** TrimString(s, start): drops the leading white space and line terminators. */
  function TrimStart(s: string): (t: string)
    ensures |t| <= |s| && t == s[|s| - |t|..]
    ensures forall i :: 0 <= i < |s| - |t| ==> IsStrWhiteSpaceChar(s[i])
    ensures |t| == 0 || !IsStrWhiteSpaceChar(t[0])
  {
    if |s| > 0 && IsStrWhiteSpaceChar(s[0]) then TrimStart(s[1..]) else s
  }

  /** The length of the longest prefix of `s` made of digits of the given radix. */
  function DigitRun(s: string, radix: nat): (n: nat)
    ensures n <= |s|
    ensures forall i :: 0 <= i < n ==> IsDigit(s[i], radix)
    ensures n == |s| || !IsDigit(s[n], radix)
  {
    if |s| > 0 && IsDigit(s[0], radix) then 1 + DigitRun(s[1..], radix) else 0
  }

  /** The mathematical value of a digit string, most significant digit first. */
  function DigitsValue(ds: string, radix: nat): int
    requires forall i :: 0 <= i < |ds| ==> IsDigit(ds[i], radix)
  {
    if |ds| == 0 then 0
    else DigitsValue(ds[..|ds| - 1], radix) * radix + DigitValue(ds[|ds| - 1])
  }

  /**
    `parseInt(s)` with an undefined radix: skip leading white space, read an optional
    sign, switch to radix 16 after a `0x`/`0X` prefix, then read the longest run of
    digits; no digit at all gives NaN.
   */
  function ParseInt(s: string): (r: Number)
    ensures (forall i :: 0 <= i < |s| ==> !IsDecimalDigit(s[i])) ==> r == NaN
  {
    var t := TrimStart(s);
    ParseSignedWithoutDigits(s, t);
    ParseSigned(t)
  }

  /** Reads the optional sign; the sign applies to whatever the digits denote. */
  function ParseSigned(t: string): Number {
    if |t| > 0 && t[0] == '-' then Negate(ParseUnsigned(t[1..]))
    else if |t| > 0 && t[0] == '+' then ParseUnsigned(t[1..])
    else ParseUnsigned(t)
  }

  function Negate(n: Number): Number {
    match n
    case Integer(v) => Integer(-v)
    case NaN => NaN
  }

  predicate HasHexPrefix(u: string) {
    |u| >= 2 && u[0] == '0' && (u[1] == 'x' || u[1] == 'X')
  }

  function ParseUnsigned(u: string): Number {
    if HasHexPrefix(u) then ParseDigits(u[2..], 16) else ParseDigits(u, 10)
  }

  /** The value of the longest digit run at the start of `b`, or NaN when that run is empty. */
  function ParseDigits(b: string, radix: nat): Number {
    var n := DigitRun(b, radix);
    if n == 0 then NaN else Integer(DigitsValue(b[..n], radix))
  }

  function DigitChar(d: nat): (c: char)
    requires d < 10
    ensures IsDecimalDigit(c) && DigitValue(c) == d
  {
    ('0' as int + d) as char
  }

  /** The decimal numeral of a natural number, without leading zeros. */
  function NatToDecimal(n: nat): (s: string)
    ensures |s| > 0
    ensures forall i :: 0 <= i < |s| ==> IsDecimalDigit(s[i])
    ensures s[0] == '0' <==> n == 0
    ensures n == 0 ==> s == "0"
  {
    if n < 10 then [DigitChar(n)] else NatToDecimal(n / 10) + [DigitChar(n % 10)]
  }

  /** The decimal numeral of an integer `n`: an optional minus sign and the digits of `|n|`. */
  function IntToDecimal(n: int): string {
    if n < 0 then "-" + NatToDecimal(-n) else NatToDecimal(n)
  }

  /** The numeral of `n` denotes `n`. */
  lemma {:induction false} NatToDecimalValue(n: nat)
    ensures DigitsValue(NatToDecimal(n), 10) == n
  {
    var s := NatToDecimal(n);
    if n >= 10 {
      var p := NatToDecimal(n / 10);
      assert s == p + [DigitChar(n % 10)];
      assert s[..|s| - 1] == p;
      NatToDecimalValue(n / 10);
    }
  }

  lemma DigitRunOfNumeral(d: string, rest: string)
    requires forall i :: 0 <= i < |d| ==> IsDecimalDigit(d[i])
    requires |rest| == 0 || !IsDecimalDigit(rest[0])
    ensures DigitRun(d + rest, 10) == |d|
  {
    assert forall i :: 0 <= i < |d| ==> (d + rest)[i] == d[i];
    assert |rest| > 0 ==> (d + rest)[|d|] == rest[0];
  }

  lemma ParseUnsignedNumeral(m: nat, rest: string)
    requires |rest| == 0 || (!IsDecimalDigit(rest[0]) && !(m == 0 && (rest[0] == 'x' || rest[0] == 'X')))
    ensures ParseUnsigned(NatToDecimal(m) + rest) == Integer(m)
  {
    var d := NatToDecimal(m);
    var u := d + rest;
    assert !HasHexPrefix(u) by {
      if |u| >= 2 && u[0] == '0' {
        assert m == 0 && |d| == 1;
        assert u[1] == rest[0];
      }
    }
    DigitRunOfNumeral(d, rest);
    assert u[..|d|] == d;
    NatToDecimalValue(m);
  }

  /**
    `parseInt` reads back the decimal numeral of any integer, and stops at the first
    character that is not a digit. A `0` followed by `x` or `X` is read as a hex prefix
    instead, so that case is excluded.
   */
  lemma ParseIntDecimalPrefix(n: int, rest: string)
    requires |rest| == 0 || (!IsDecimalDigit(rest[0]) && !(n == 0 && (rest[0] == 'x' || rest[0] == 'X')))
    ensures ParseInt(IntToDecimal(n) + rest) == Integer(n)
  {
    var s := IntToDecimal(n) + rest;
    if n < 0 {
      var m: nat := -n;
      assert IntToDecimal(n) == "-" + NatToDecimal(m);
      assert s == "-" + (NatToDecimal(m) + rest);
      ParseNegativeNumeral(m, rest);
      assert ParseInt(s) == ParseInt("-" + (NatToDecimal(m) + rest));
    } else {
      var m: nat := n;
      assert s == NatToDecimal(m) + rest;
      ParseNonNegativeNumeral(m, rest);
      assert ParseInt(s) == ParseInt(NatToDecimal(m) + rest);
    }
  }

  lemma ParseNonNegativeNumeral(m: nat, rest: string)
    requires |rest| == 0 || (!IsDecimalDigit(rest[0]) && !(m == 0 && (rest[0] == 'x' || rest[0] == 'X')))
    ensures ParseInt(NatToDecimal(m) + rest) == Integer(m)
  {
    var s := NatToDecimal(m) + rest;
    assert s[0] == NatToDecimal(m)[0];
    TrimStartKeeps(s);
    assert ParseSigned(s) == ParseUnsigned(s);
    ParseUnsignedNumeral(m, rest);
  }

  lemma ParseNegativeNumeral(m: nat, rest: string)
    requires m > 0
    requires |rest| == 0 || !IsDecimalDigit(rest[0])
    ensures ParseInt("-" + (NatToDecimal(m) + rest)) == Integer(-(m as int))
  {
    var s := "-" + (NatToDecimal(m) + rest);
    TrimStartKeeps(s);
    assert s[1..] == NatToDecimal(m) + rest;
    ParseUnsignedNumeral(m, rest);
  }

  /** A string that does not start with white space is its own trimming. */
  lemma TrimStartKeeps(s: string)
    requires |s| > 0 && (s[0] == '-' || IsDecimalDigit(s[0]))
    ensures TrimStart(s) == s
  {
    assert !IsStrWhiteSpaceChar(s[0]);
  }

  /** Round trip: `parseInt` reads the decimal numeral of every integer `n` back as `n`. */
  lemma ParseIntRoundTrip(n: int)
    ensures ParseInt(IntToDecimal(n)) == Integer(n)
  {
    ParseIntDecimalPrefix(n, "");
    assert IntToDecimal(n) + "" == IntToDecimal(n);
  }

  lemma {:induction false} TrimStartSkipsWhiteSpace(ws: string, s: string)
    requires forall i :: 0 <= i < |ws| ==> IsStrWhiteSpaceChar(ws[i])
    ensures TrimStart(ws + s) == TrimStart(s)
  {
    if |ws| > 0 {
      assert (ws + s)[0] == ws[0];
      assert (ws + s)[1..] == ws[1..] + s;
      TrimStartSkipsWhiteSpace(ws[1..], s);
    } else {
      assert ws + s == s;
    }
  }

  /** Leading white space never changes what `parseInt` reads. */
  lemma ParseIntSkipsWhiteSpace(ws: string, s: string)
    requires forall i :: 0 <= i < |ws| ==> IsStrWhiteSpaceChar(ws[i])
    ensures ParseInt(ws + s) == ParseInt(s)
  {
    TrimStartSkipsWhiteSpace(ws, s);
  }

  /** A suffix of a string without decimal digits reads as NaN (a hex prefix needs its `0`). */
  lemma ParseSignedWithoutDigits(s: string, t: string)
    requires |t| <= |s| && t == s[|s| - |t|..]
    ensures (forall i :: 0 <= i < |s| ==> !IsDecimalDigit(s[i])) ==> ParseSigned(t) == NaN
  {
    if forall i :: 0 <= i < |s| ==> !IsDecimalDigit(s[i]) {
      var u := if |t| > 0 && (t[0] == '-' || t[0] == '+') then t[1..] else t;
      assert u == s[|s| - |u|..];
      if |u| > 0 {
        assert u[0] == s[|s| - |u|];
        assert !IsDigit(u[0], 10);
        assert !HasHexPrefix(u);
      }
    }
  }

  /** `parseInt` stops at the first character that is not a digit. */
  lemma ParseIntTrailingTextExample()
    ensures ParseInt("42px") == Integer(42)
  {
    assert NatToDecimal(42) == "42";
    ParseIntDecimalPrefix(42, "px");
    assert "42" + "px" == "42px";
  }

  /** White space before the sign is skipped. */
  lemma ParseIntWhiteSpaceExample()
    ensures ParseInt(" \t-7") == Integer(-7)
  {
    assert IntToDecimal(-7) == "-7" by {
      assert NatToDecimal(7) == "7";
    }
    ParseIntRoundTrip(-7);
    assert IsStrWhiteSpaceChar(' ') && IsStrWhiteSpaceChar('\t');
    ParseIntSkipsWhiteSpace(" \t", "-7");
    assert " \t" + "-7" == " \t-7";
  }

  /** The implicit hex prefix: `0x1A` is 26. */
  lemma ParseIntHexExample()
    ensures ParseInt("0x1A") == Integer(26)
  {
    var h := "0x1A";
    TrimStartKeeps(h);
    assert HasHexPrefix(h) && h[2..] == "1A";
    HexDigitsExample();
  }

  lemma HexDigitsExample()
    ensures ParseDigits("1A", 16) == Integer(26)
  {
    assert DigitRun("1A", 16) == 2 by {
      assert "1A"[1..] == "A";
      assert "A"[1..] == "";
    }
    assert "1A"[..2] == "1A";
    assert DigitsValue("1A", 16) == 26 by {
      assert "1A"[..1] == "1";
      assert "1"[..0] == "";
    }
  }

  /** A hex prefix with no digit after it reads as NaN, not as the `0` before it. */
  lemma ParseIntBareHexPrefixExample()
    ensures ParseInt("0x") == NaN
  {
    assert TrimStart("0x") == "0x";
    assert HasHexPrefix("0x") && "0x"[2..] == "";
  }

  function LowerChar(c: char): char {
    if 'A' <= c <= 'Z' then (c as int + 32) as char else c
  }

  function UpperChar(c: char): char {
    if 'a' <= c <= 'z' then (c as int - 32) as char else c
  }

  /** `s.toLowerCase()` on ASCII letters; every other character is kept. */
  function ToLowerCase(s: string): (t: string)
    ensures |t| == |s|
    ensures forall i :: 0 <= i < |t| ==> !('A' <= t[i] <= 'Z')
    ensures forall i :: 0 <= i < |s| ==> t[i] == s[i] || ('A' <= s[i] <= 'Z' && UpperChar(t[i]) == s[i])
  {
    seq(|s|, i requires 0 <= i < |s| => LowerChar(s[i]))
  }

  /** Lowering is idempotent: a lowered string has no capital left to lower. */
  lemma ToLowerCaseIdempotent(s: string)
    ensures ToLowerCase(ToLowerCase(s)) == ToLowerCase(s)
  {
  }
}
