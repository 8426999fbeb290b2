/** Decimal numerals: writing a natural number in decimal, and JavaScript's
    `parseInt(s)` called without a radix, which the registration form uses to
    read the joining year. */
module Numerals {
  import opened Common

  predicate IsDecimalDigit(c: char)
  {
    '0' <= c <= '9'
  }

  /** A digit of radix 16 when `hex`, of radix 10 otherwise. */
  predicate IsRadixDigit(c: char, hex: bool)
  {
    IsDecimalDigit(c) || (hex && ('a' <= c <= 'f' || 'A' <= c <= 'F'))
  }

  function DigitValue(c: char, hex: bool): (d: nat)
    requires IsRadixDigit(c, hex)
    ensures d < 16
    ensures IsDecimalDigit(c) <==> d < 10
  {
    if IsDecimalDigit(c) then c as int - '0' as int
    else if 'a' <= c <= 'f' then c as int - 'a' as int + 10
    else c as int - 'A' as int + 10
  }

  function Base(hex: bool): nat
  {
    if hex then 16 else 10
  }

  /** The number a string of digits denotes, most significant digit first. */
  function DigitsValue(ds: string, hex: bool): nat
    requires forall i :: 0 <= i < |ds| ==> IsRadixDigit(ds[i], hex)
  {
    if |ds| == 0 then 0
    else DigitsValue(ds[..|ds| - 1], hex) * Base(hex) + DigitValue(ds[|ds| - 1], hex)
  }

  /** The length of the longest prefix of `s` made of digits. */
  function DigitPrefixLength(s: string, hex: bool): (n: nat)
    ensures n <= |s|
    ensures forall i :: 0 <= i < n ==> IsRadixDigit(s[i], hex)
    ensures n < |s| ==> !IsRadixDigit(s[n], hex)
  {
    if |s| > 0 && IsRadixDigit(s[0], hex) then 1 + DigitPrefixLength(s[1..], hex) else 0
  }

  /** JavaScript's StrWhiteSpaceChar: the WhiteSpace and LineTerminator code points. */
  predicate IsJsWhitespace(c: char)
  {
    var n := c as int;
    n == 0x09 || n == 0x0B || n == 0x0C || n == 0x20 || n == 0xA0 || n == 0x1680
    || (0x2000 <= n <= 0x200A) || n == 0x202F || n == 0x205F || n == 0x3000 || n == 0xFEFF
    || n == 0x0A || n == 0x0D || n == 0x2028 || n == 0x2029
  }

  /** `s` without its leading white space. */
  function TrimStart(s: string): (t: string)
    ensures |t| <= |s| && t == s[|s| - |t|..]
    ensures forall i :: 0 <= i < |s| - |t| ==> IsJsWhitespace(s[i])
    ensures |t| > 0 ==> !IsJsWhitespace(t[0])
  {
    if |s| > 0 && IsJsWhitespace(s[0]) then TrimStart(s[1..]) else s
  }

  /** `s` after white space and one sign character have been removed. */
  function Unsigned(s: string): string
  {
    var t := TrimStart(s);
    if |t| > 0 && (t[0] == '-' || t[0] == '+') then t[1..] else t
  }

  predicate HasHexPrefix(u: string)
  {
    |u| >= 2 && u[0] == '0' && (u[1] == 'x' || u[1] == 'X')
  }

  /** True when the first character after the leading white space is `-`. */
  predicate IsNegative(s: string)
  {
    var t := TrimStart(s);
    |t| > 0 && t[0] == '-'
  }

  /** The unsigned part of `parseInt`: radix 16 after a `0x` or `0X` prefix,
      radix 10 otherwise, then the longest run of digits; None when that run
      is empty. */
  function ParseDigits(u: string): Option<nat>
  {
    var hex := HasHexPrefix(u);
    var body := if hex then u[2..] else u;
    var n := DigitPrefixLength(body, hex);
    if n == 0 then None else Some(DigitsValue(body[..n], hex))
  }

  /** `parseInt(s)` with no radix, following the steps of the ECMAScript
      definition: skip leading white space, read one optional sign, then read
      the digits as ParseDigits does. None stands for NaN. */
  function ParseInt(s: string): (r: Option<int>)
    ensures r.Some? && r.value < 0 ==> IsNegative(s)
    ensures r.Some? && IsNegative(s) ==> r.value <= 0
    ensures r.None? ==> ParseDigits(Unsigned(s)).None?
  {
    match ParseDigits(Unsigned(s))
    case None => None
    case Some(m) => Some(if IsNegative(s) then -(m as int) else m)
  }

  function DigitChar(d: nat): (c: char)
    requires d < 10
    ensures IsDecimalDigit(c) && DigitValue(c, false) == d
  {
    ('0' as int + d) as char
  }

  /** The decimal numeral of `n`, without leading zeros. */
  function ToDecimal(n: nat): (s: string)
    ensures |s| > 0
    ensures forall i :: 0 <= i < |s| ==> IsDecimalDigit(s[i])
    ensures s[0] == '0' ==> s == "0"
    ensures DigitsValue(s, false) == n
  {
    if n < 10 then [DigitChar(n)]
    else
      var s := ToDecimal(n / 10) + [DigitChar(n % 10)];
      assert s[..|s| - 1] == ToDecimal(n / 10);
      s
  }

  lemma {:induction false} TrimStartOfNonWhitespace(s: string)
    requires |s| == 0 || !IsJsWhitespace(s[0])
    ensures TrimStart(s) == s
  {
  }

  /** Trimming removes every leading white-space character, so a white-space
      prefix leaves the trimmed string as it was. */
  lemma {:induction false} TrimStartSkipsWhitespace(ws: string, s: string)
    requires forall i :: 0 <= i < |ws| ==> IsJsWhitespace(ws[i])
    ensures TrimStart(ws + s) == TrimStart(s)
  {
    if |ws| > 0 {
      assert (ws + s)[1..] == ws[1..] + s;
      TrimStartSkipsWhitespace(ws[1..], s);
    } else {
      assert ws + s == s;
    }
  }

  /** Leading white space never changes what `parseInt` returns. */
  lemma ParseIntSkipsWhitespace(ws: string, s: string)
    requires forall i :: 0 <= i < |ws| ==> IsJsWhitespace(ws[i])
    ensures ParseInt(ws + s) == ParseInt(s)
  {
    TrimStartSkipsWhitespace(ws, s);
    ParseIntOfTrimmed(ws + s, s);
  }

  /** `parseInt` depends only on the string without its leading white space. */
  lemma ParseIntOfTrimmed(s: string, s': string)
    requires TrimStart(s) == TrimStart(s')
    ensures ParseInt(s) == ParseInt(s')
  {
    SignOfTrimmed(s, s');
    ParseIntOfSign(s, s');
  }

  lemma SignOfTrimmed(s: string, s': string)
    requires TrimStart(s) == TrimStart(s')
    ensures Unsigned(s) == Unsigned(s') && IsNegative(s) == IsNegative(s')
  {
  }

  lemma ParseIntOfSign(s: string, s': string)
    requires Unsigned(s) == Unsigned(s') && IsNegative(s) == IsNegative(s')
    ensures ParseInt(s) == ParseInt(s')
  {
  }

  /** A string of digits followed by a non-digit is read up to that non-digit. */
  lemma {:induction false} DigitPrefixOfNumeral(ds: string, rest: string, hex: bool)
    requires forall i :: 0 <= i < |ds| ==> IsRadixDigit(ds[i], hex)
    requires |rest| == 0 || !IsRadixDigit(rest[0], hex)
    ensures DigitPrefixLength(ds + rest, hex) == |ds|
  {
    if |ds| > 0 {
      assert (ds + rest)[1..] == ds[1..] + rest;
      DigitPrefixOfNumeral(ds[1..], rest, hex);
    }
  }

  /** `parseInt` reads back the decimal numeral of every natural number, also
      when a non-digit follows it (as in "2020.5"), except that "0x" followed
      by hex digits is read in radix 16. */
  lemma ParseIntOfDecimal(n: nat, rest: string)
    requires |rest| == 0 || !IsDecimalDigit(rest[0])
    requires n == 0 && |rest| > 0 ==> rest[0] != 'x' && rest[0] != 'X'
    ensures ParseInt(ToDecimal(n) + rest) == Some(n)
    ensures ParseInt(ToDecimal(n)) == Some(n)
  {
    ParseIntOfNumeral(n, rest);
    ParseIntOfNumeral(n, "");
    assert ToDecimal(n) + "" == ToDecimal(n);
  }

  lemma ParseIntOfNumeral(n: nat, rest: string)
    requires |rest| == 0 || !IsDecimalDigit(rest[0])
    requires n == 0 && |rest| > 0 ==> rest[0] != 'x' && rest[0] != 'X'
    ensures ParseInt(ToDecimal(n) + rest) == Some(n)
  {
    var s := ToDecimal(n) + rest;
    assert s[0] == ToDecimal(n)[0];
    TrimStartOfNonWhitespace(s);
    assert Unsigned(s) == s && !IsNegative(s);
    ParseDigitsOfNumeral(n, rest);
  }

  lemma ParseDigitsOfNumeral(n: nat, rest: string)
    requires |rest| == 0 || !IsDecimalDigit(rest[0])
    requires n == 0 && |rest| > 0 ==> rest[0] != 'x' && rest[0] != 'X'
    ensures ParseDigits(ToDecimal(n) + rest) == Some(n)
  {
    var d := ToDecimal(n);
    var s := d + rest;
    assert !HasHexPrefix(s) by {
      assert s[0] == d[0];
      assert s[0] == '0' ==> d == "0";
    }
    DigitPrefixOfNumeral(d, rest, false);
    assert s[..|d|] == d;
  }

  /** With a leading minus sign, `parseInt` yields the negated value. */
  lemma ParseIntOfNegative(n: nat)
    ensures ParseInt("-" + ToDecimal(n)) == Some(-(n as int))
  {
    var d := ToDecimal(n);
    var s := "-" + d;
    TrimStartOfNonWhitespace(s);
    assert IsNegative(s);
    assert Unsigned(s) == d + "" by { assert s[1..] == d; }
    ParseDigitsOfNumeral(n, "");
    assert ParseDigits(Unsigned(s)) == Some(n);
  }

  /** A string without a single decimal digit parses to NaN. */
  lemma NoDigitMeansNaN(s: string)
    requires forall i :: 0 <= i < |s| ==> !IsDecimalDigit(s[i])
    ensures ParseInt(s) == None
  {
    var u := Unsigned(s);
    assert forall i :: 0 <= i < |u| ==> !IsDecimalDigit(u[i]) by {
      var t := TrimStart(s);
      forall i | 0 <= i < |u| ensures !IsDecimalDigit(u[i]) {
        if |t| > 0 && (t[0] == '-' || t[0] == '+') {
          assert u[i] == t[i + 1] == s[|s| - |t| + i + 1];
        } else {
          assert u[i] == t[i] == s[|s| - |t| + i];
        }
      }
    }
    assert !HasHexPrefix(u);
  }

  /** The hexadecimal reading that a `type="number"` joining-year field never
      produces but `parseInt` performs: "0x7D0" reads as 2000. */
  lemma HexPrefixExample()
    ensures ParseInt("0x7D0") == Some(2000)
  {
    var s := "0x7D0";
    TrimStartOfNonWhitespace(s);
    assert Unsigned(s) == s && !IsNegative(s);
    assert s == "0x" + "7D0";
    ParseDigitsOfHex("7D0");
    HexValue();
  }

  /** After a "0x" prefix, `parseInt` reads the hex digits in radix 16. */
  lemma ParseDigitsOfHex(ds: string)
    requires |ds| > 0 && forall i :: 0 <= i < |ds| ==> IsRadixDigit(ds[i], true)
    ensures ParseDigits("0x" + ds) == Some(DigitsValue(ds, true))
  {
    var u := "0x" + ds;
    assert HasHexPrefix(u);
    assert u[2..] == ds + "";
    DigitPrefixOfNumeral(ds, "", true);
    assert (ds + "")[..|ds|] == ds;
  }

  lemma HexValue()
    ensures DigitsValue("7D0", true) == 2000
  {
    assert "7D0"[..2] == "7D";
    assert "7D"[..1] == "7";
    assert "7"[..0] == "";
    assert DigitsValue("7", true) == 7;
    assert DigitsValue("7D", true) == 7 * 16 + 13;
  }
}
