/**
 * The pieces of the JavaScript string library the editor relies on:
 * `trim`, `parseInt`, `Number.prototype.toString` in base 10 and 16,
 * `padStart`, `endsWith` and the digit runs of `/\d+/g`. A JavaScript string
 * is a `string` here; the editor only ever applies these to text whose
 * characters lie in the Basic Multilingual Plane, where a character and a
 * UTF-16 code unit coincide.
 */
module JsText {
  import opened Wrappers

  /** WhiteSpace and LineTerminator of section 12.2 and 12.3 of ECMA-262: what `trim` and `\s` strip. */
  predicate IsSpace(c: char) {
    c == '\t' || c == '\n' || c == '\U{B}' || c == '\U{C}' || c == '\r' || c == ' '
    || c == '\U{A0}' || c == '\U{1680}' || ('\U{2000}' <= c <= '\U{200A}')
    || c == '\U{2028}' || c == '\U{2029}' || c == '\U{202F}' || c == '\U{205F}'
    || c == '\U{3000}' || c == '\U{FEFF}'
  }

  /** `s.trimStart()`. */
  function TrimStart(s: string): (r: string)
    ensures |r| <= |s| && r == s[|s| - |r|..]
    ensures forall i :: 0 <= i < |s| - |r| ==> IsSpace(s[i])
    ensures r == [] || !IsSpace(r[0])
  {
    if s != [] && IsSpace(s[0]) then TrimStart(s[1..]) else s
  }

  /** `s.trimEnd()`. */
  function TrimEnd(s: string): (r: string)
    ensures |r| <= |s| && r == s[..|r|]
    ensures forall i :: |r| <= i < |s| ==> IsSpace(s[i])
    ensures r == [] || !IsSpace(r[|r| - 1])
  {
    if s != [] && IsSpace(s[|s| - 1]) then TrimEnd(s[..|s| - 1]) else s
  }

  /** `r` occurs in `s` starting at index `i`. */
  predicate InfixAt(r: string, s: string, i: int) {
    0 <= i <= |s| - |r| && s[i..i + |r|] == r
  }

  /** `s.trim()`: the middle of `s` once the white space at both ends is gone. */
  function Trim(s: string): (r: string)
    ensures exists i :: InfixAt(r, s, i)
    ensures r == [] || (!IsSpace(r[0]) && !IsSpace(r[|r| - 1]))
    ensures r == [] <==> forall i :: 0 <= i < |s| ==> IsSpace(s[i])
  {
    var t := TrimStart(s);
    var r := TrimEnd(t);
    var k := |s| - |t|;
    assert InfixAt(r, s, k) by {
      assert r == t[..|r|];
      assert t[..|r|] == s[k..k + |r|];
    }
    r
  }

  /** A string with no white space at either end is its own trim. */
  lemma TrimOfTrimmed(s: string)
    requires s == [] || (!IsSpace(s[0]) && !IsSpace(s[|s| - 1]))
    ensures Trim(s) == s
  {
  }

  /** White space in front of a string that starts with none is all `trimStart` removes. */
  lemma {:induction false} TrimStartSpaces(pre: string, t: string)
    requires forall i :: 0 <= i < |pre| ==> IsSpace(pre[i])
    requires t == [] || !IsSpace(t[0])
    ensures TrimStart(pre + t) == t
  {
    if pre != [] {
      assert (pre + t)[1..] == pre[1..] + t;
      TrimStartSpaces(pre[1..], t);
    }
  }

  /** White space after a string that ends with none is all `trimEnd` removes. */
  lemma {:induction false} TrimEndSpaces(t: string, post: string)
    requires forall i :: 0 <= i < |post| ==> IsSpace(post[i])
    requires t == [] || !IsSpace(t[|t| - 1])
    ensures TrimEnd(t + post) == t
  {
    if post != [] {
      var n := |post| - 1;
      assert (t + post)[..|t + post| - 1] == t + post[..n];
      TrimEndSpaces(t, post[..n]);
    }
  }

  /** `trim` gives back a non-empty string with no white space at its ends, whatever white space surrounds it. */
  lemma TrimSurrounded(pre: string, m: string, post: string)
    requires forall i :: 0 <= i < |pre| ==> IsSpace(pre[i])
    requires forall i :: 0 <= i < |post| ==> IsSpace(post[i])
    requires m != [] && !IsSpace(m[0]) && !IsSpace(m[|m| - 1])
    ensures Trim(pre + m + post) == m
  {
    assert pre + m + post == pre + (m + post);
    TrimStartSpaces(pre, m + post);
    TrimEndSpaces(m, post);
  }

  predicate IsDigit(c: char) { '0' <= c <= '9' }

  function DigitValue(c: char): nat requires IsDigit(c) { (c as int) - ('0' as int) }

  /** The value of a hexadecimal digit in either case, if `c` is one. */
  function HexDigitValue(c: char): (r: Option<nat>)
    ensures r.Some? ==> r.value < 16
  {
    if '0' <= c <= '9' then Some((c as int) - ('0' as int))
    else if 'a' <= c <= 'f' then Some((c as int) - ('a' as int) + 10)
    else if 'A' <= c <= 'F' then Some((c as int) - ('A' as int) + 10)
    else None
  }

  /** The number of leading characters of `s` that `p` accepts. */
  function DigitPrefixLength(s: string, hex: bool): (n: nat)
    ensures n <= |s|
    ensures forall i :: 0 <= i < n ==> (if hex then HexDigitValue(s[i]).Some? else IsDigit(s[i]))
    ensures n < |s| ==> !(if hex then HexDigitValue(s[n]).Some? else IsDigit(s[n]))
  {
    if s != [] && (if hex then HexDigitValue(s[0]).Some? else IsDigit(s[0]))
    then 1 + DigitPrefixLength(s[1..], hex) else 0
  }

  /** The value of a run of digits in base 10 or 16, most significant first. */
  function DigitsValue(s: string, hex: bool): nat
    requires forall i :: 0 <= i < |s| ==> (if hex then HexDigitValue(s[i]).Some? else IsDigit(s[i]))
  {
    if s == [] then 0
    else
      var last := s[|s| - 1];
      DigitsValue(s[..|s| - 1], hex) * (if hex then 16 else 10)
      + (if hex then HexDigitValue(last).value else DigitValue(last))
  }

  /**
   * `parseInt(s)` with no radix (section 19.2.5 of ECMA-262): leading white
   * space, an optional sign, a `0x`/`0X` prefix for base 16, and the longest
   * run of digits after it. `None` is NaN, the result when no digit follows.
   */
  function ParseInt(s: string): (r: Option<int>)
    ensures r.Some? ==> exists k :: 0 <= k < |s| && HexDigitValue(s[k]).Some?
  {
    var t := TrimStart(s);
    var r := ParseSigned(t);
    if r.None? then None
    else
      var k :| 0 <= k < |t| && HexDigitValue(t[k]).Some?;
      assert s[|s| - |t| + k] == t[k];
      r
  }

  /** `parseInt` once the white space is gone: an optional sign, then the magnitude. */
  function ParseSigned(t: string): (r: Option<int>)
    ensures r.Some? ==> exists k :: 0 <= k < |t| && HexDigitValue(t[k]).Some?
  {
    var neg := t != [] && t[0] == '-';
    var u := if t != [] && (t[0] == '-' || t[0] == '+') then t[1..] else t;
    var m := ParseMagnitude(u);
    if m.None? then None
    else
      assert u == t[|t| - |u|..];
      var k :| 0 <= k < |u| && HexDigitValue(u[k]).Some?;
      assert t[|t| - |u| + k] == u[k];
      Some(if neg then -(m.value as int) else m.value)
  }

  /** What `parseInt` reads after the sign: a `0x`/`0X` prefix for base 16, then the longest run of digits. */
  function ParseMagnitude(u: string): (r: Option<nat>)
    ensures r.Some? ==> exists k :: 0 <= k < |u| && HexDigitValue(u[k]).Some?
  {
    var hex := |u| >= 2 && u[0] == '0' && (u[1] == 'x' || u[1] == 'X');
    var v := if hex then u[2..] else u;
    var n := DigitPrefixLength(v, hex);
    if n == 0 then None
    else
      assert v[0] == u[|u| - |v|];
      Some(DigitsValue(v[..n], hex))
  }

  /** The digits of `n` in base 10 (`String(n)` for a whole number). */
  function Decimal(n: nat): (s: string)
    ensures |s| >= 1 && forall i :: 0 <= i < |s| ==> IsDigit(s[i])
    ensures |s| > 1 ==> s[0] != '0'
  {
    if n < 10 then [('0' as int + n) as char]
    else Decimal(n / 10) + [('0' as int + n % 10) as char]
  }

  /** The lower-case digits of `n` in base 16 (`n.toString(16)`). */
  function Hex(n: nat): (s: string)
    ensures |s| >= 1 && forall i :: 0 <= i < |s| ==> HexDigitValue(s[i]).Some? && !('A' <= s[i] <= 'F')
    ensures |s| > 1 ==> s[0] != '0'
    ensures n < 16 <==> |s| == 1
    ensures n < 256 ==> |s| <= 2
  {
    if n < 16 then [HexChar(n)]
    else Hex(n / 16) + [HexChar(n % 16)]
  }

  function HexChar(d: nat): (c: char)
    requires d < 16
    ensures HexDigitValue(c) == Some(d) && !('A' <= c <= 'F')
  {
    if d < 10 then ('0' as int + d) as char else ('a' as int + d - 10) as char
  }

  /** Reading the digits `Decimal` writes gives the number back. */
  lemma {:induction false} DecimalValue(n: nat)
    ensures DigitsValue(Decimal(n), false) == n
  {
    if n >= 10 {
      var s := Decimal(n);
      assert s[..|s| - 1] == Decimal(n / 10);
      DecimalValue(n / 10);
    }
  }

  /** Reading the digits `Hex` writes gives the number back. */
  lemma {:induction false} HexValue(n: nat)
    ensures DigitsValue(Hex(n), true) == n
  {
    if n >= 16 {
      var s := Hex(n);
      assert s[..|s| - 1] == Hex(n / 16);
      HexValue(n / 16);
    }
  }

  /** `s.padStart(2, '0')`. */
  function PadStart2(s: string): (r: string)
    ensures |s| >= 2 ==> r == s
    ensures |s| < 2 ==> |r| == 2 && r[2 - |s|..] == s && forall i :: 0 <= i < 2 - |s| ==> r[i] == '0'
  {
    if |s| >= 2 then s else seq(2 - |s|, _ => '0') + s
  }

  function EndsWith(s: string, suffix: string): bool {
    |suffix| <= |s| && s[|s| - |suffix|..] == suffix
  }

  /** `s.match(/\d+/g)` read as numbers: the maximal digit runs of `s`, left to right. */
  function DigitRuns(s: string): (runs: seq<nat>)
    decreases |s|
  {
    if s == [] then []
    else if !IsDigit(s[0]) then DigitRuns(s[1..])
    else
      var n := DigitPrefixLength(s, false);
      [DigitsValue(s[..n], false)] + DigitRuns(s[n..])
  }

  /** A string of digits with no leading zero is exactly one run. */
  lemma DigitRunsOfDecimal(n: nat)
    ensures DigitRuns(Decimal(n)) == [n]
  {
    var s := Decimal(n);
    assert DigitPrefixLength(s, false) == |s|;
    assert s[..|s|] == s;
    DecimalValue(n);
  }

  /** A run of digits followed by something that is not a digit is read exactly to its end. */
  lemma {:induction false} DigitPrefixOfDigits(d: string, q: string, hex: bool)
    requires forall i :: 0 <= i < |d| ==> (if hex then HexDigitValue(d[i]).Some? else IsDigit(d[i]))
    requires q == [] || !(if hex then HexDigitValue(q[0]).Some? else IsDigit(q[0]))
    ensures DigitPrefixLength(d + q, hex) == |d|
  {
    if d != [] {
      assert (d + q)[1..] == d[1..] + q;
      DigitPrefixOfDigits(d[1..], q, hex);
    } else {
      assert d + q == q;
    }
  }

  /** The number `String(n)` writes is one run, ended by whatever follows that is not a digit. */
  lemma DigitRunsAfterNumber(n: nat, q: string)
    requires q == [] || !IsDigit(q[0])
    ensures DigitRuns(Decimal(n) + q) == [n] + DigitRuns(q)
  {
    var d := Decimal(n);
    DigitPrefixOfDigits(d, q, false);
    assert (d + q)[..|d|] == d;
    assert (d + q)[|d|..] == q;
    DecimalValue(n);
  }

  /** Text without digits adds no run. */
  lemma {:induction false} DigitRunsSkip(p: string, q: string)
    requires forall i :: 0 <= i < |p| ==> !IsDigit(p[i])
    ensures DigitRuns(p + q) == DigitRuns(q)
  {
    if p != [] {
      assert (p + q)[1..] == p[1..] + q;
      DigitRunsSkip(p[1..], q);
    } else {
      assert p + q == q;
    }
  }

  /** `String(n)` starts with `0` only for 0. */
  lemma DecimalLeadingZero(n: nat)
    requires Decimal(n)[0] == '0'
    ensures n == 0
  {
  }

  /** A number of 256 or more takes more than two hexadecimal digits. */
  lemma HexWide(n: nat)
    requires n >= 256
    ensures |Hex(n)| > 2
  {
    assert Hex(n) == Hex(n / 16) + [HexChar(n % 16)];
  }

  /** A leading `0` does not change the value of a run of hexadecimal digits. */
  lemma {:induction false} HexLeadingZero(x: string)
    requires forall i :: 0 <= i < |x| ==> HexDigitValue(x[i]).Some?
    ensures DigitsValue("0" + x, true) == DigitsValue(x, true)
  {
    if x != [] {
      assert ("0" + x)[..|"0" + x| - 1] == "0" + x[..|x| - 1];
      HexLeadingZero(x[..|x| - 1]);
    }
  }

  /** `parseInt` reads back every number `String` writes. */
  lemma ParseIntOfDecimal(n: nat)
    ensures ParseInt(Decimal(n)) == Some(n)
  {
    var s := Decimal(n);
    var e: string := [];
    ParseIntDecimal(e, e, s, e);
    assert e + e == e && e + s == s && s + e == s;
    DecimalValue(n);
  }
  /** Every character of `d` is a digit of the base. */
  predicate AllDigits(d: string, hex: bool) {
    forall i :: 0 <= i < |d| ==> (if hex then HexDigitValue(d[i]).Some? else IsDigit(d[i]))
  }

  /** The run of digits in front of a character that is none is all `DigitPrefixLength` counts. */
  lemma {:induction false} DigitPrefixOf(d: string, rest: string, hex: bool)
    requires AllDigits(d, hex)
    requires rest == [] || !(if hex then HexDigitValue(rest[0]).Some? else IsDigit(rest[0]))
    ensures DigitPrefixLength(d + rest, hex) == |d|
    ensures (d + rest)[..|d|] == d
  {
    if d != [] {
      assert (d + rest)[1..] == d[1..] + rest;
      DigitPrefixOf(d[1..], rest, hex);
    }
  }

  /** The signs `parseInt` accepts in front of the digits: none, `+` or `-`. */
  predicate IsSign(sign: string) { sign == "" || sign == "+" || sign == "-" }

  /** The magnitude `m` with the sign applied. */
  function Signed(sign: string, m: nat): int {
    if sign == "-" then -(m as int) else m
  }

  /**
   * `parseInt` skips the white space, takes the sign, and reads the rest
   * as a magnitude; a text with no sign must not start with one, nor with
   * white space the leading run would have taken.
   */
  lemma ParseIntSigned(pre: string, sign: string, u: string)
    requires forall i :: 0 <= i < |pre| ==> IsSpace(pre[i])
    requires IsSign(sign)
    requires sign == "" ==> u == [] || (!IsSpace(u[0]) && u[0] != '+' && u[0] != '-')
    ensures var m := ParseMagnitude(u);
      ParseInt(pre + sign + u) == if m.None? then None else Some(Signed(sign, m.value))
  {
    var t := sign + u;
    assert pre + sign + u == pre + t;
    TrimStartSpaces(pre, t);
    SignedOf(sign, u);
  }

  lemma SignedOf(sign: string, u: string)
    requires IsSign(sign)
    requires sign == "" ==> u == [] || (u[0] != '+' && u[0] != '-')
    ensures var m := ParseMagnitude(u);
      ParseSigned(sign + u) == if m.None? then None else Some(Signed(sign, m.value))
  {
    if sign != "" {
      assert (sign + u)[0] == sign[0] && (sign + u)[1..] == u;
    } else {
      assert sign + u == u;
    }
  }

  /** A run of decimal digits followed by no digit (and not by the `x` of a `0x`) reads as its value. */
  lemma MagnitudeDecimal(digits: string, rest: string)
    requires digits != [] && AllDigits(digits, false)
    requires rest == [] || !IsDigit(rest[0])
    requires !(digits == "0" && rest != [] && (rest[0] == 'x' || rest[0] == 'X'))
    ensures ParseMagnitude(digits + rest) == Some(DigitsValue(digits, false))
  {
    var u := digits + rest;
    assert |u| >= 2 ==> u[1] == (if |digits| >= 2 then digits[1] else rest[0]);
    DigitPrefixOf(digits, rest, false);
  }

  /** `0x` and a run of hexadecimal digits followed by none reads as its value; NaN with no digit. */
  lemma MagnitudeHex(x: char, digits: string, rest: string)
    requires (x == 'x' || x == 'X') && AllDigits(digits, true)
    requires rest == [] || HexDigitValue(rest[0]).None?
    ensures ParseMagnitude(['0', x] + digits + rest)
            == if digits == [] then None else Some(DigitsValue(digits, true))
  {
    var u := ['0', x] + digits + rest;
    assert u[2..] == digits + rest;
    DigitPrefixOf(digits, rest, true);
  }

  /**
   * Decimal `parseInt`: white space, a sign and a run of decimal digits,
   * followed by anything that is not a digit (and not the `x` of a `0x`),
   * read as the signed value of the digits.
   */
  lemma ParseIntDecimal(pre: string, sign: string, digits: string, rest: string)
    requires forall i :: 0 <= i < |pre| ==> IsSpace(pre[i])
    requires IsSign(sign) && digits != [] && AllDigits(digits, false)
    requires rest == [] || !IsDigit(rest[0])
    requires !(digits == "0" && rest != [] && (rest[0] == 'x' || rest[0] == 'X'))
    ensures ParseInt(pre + sign + digits + rest) == Some(Signed(sign, DigitsValue(digits, false)))
  {
    assert pre + sign + digits + rest == pre + sign + (digits + rest);
    ParseIntSigned(pre, sign, digits + rest);
    MagnitudeDecimal(digits, rest);
  }

  /**
   * Hexadecimal `parseInt`: white space, a sign, `0x` or `0X` and a run of
   * hexadecimal digits, followed by anything that is not one, read as the
   * signed value of the digits; NaN when no digit follows the prefix.
   */
  lemma ParseIntHex(pre: string, sign: string, x: char, digits: string, rest: string)
    requires forall i :: 0 <= i < |pre| ==> IsSpace(pre[i])
    requires IsSign(sign) && (x == 'x' || x == 'X') && AllDigits(digits, true)
    requires rest == [] || HexDigitValue(rest[0]).None?
    ensures ParseInt(pre + sign + ['0', x] + digits + rest)
            == if digits == [] then None else Some(Signed(sign, DigitsValue(digits, true)))
  {
    var u := ['0', x] + digits + rest;
    assert pre + sign + ['0', x] + digits + rest == pre + sign + u;
    ParseIntSigned(pre, sign, u);
    MagnitudeHex(x, digits, rest);
  }

  /**
   * `parseInt` is NaN when, after the white space and the sign, the text
   * does not start with a digit.
   */
  lemma ParseIntNoDigit(pre: string, sign: string, rest: string)
    requires forall i :: 0 <= i < |pre| ==> IsSpace(pre[i])
    requires IsSign(sign)
    requires rest == [] || (!IsDigit(rest[0]) && (sign != "" || (!IsSpace(rest[0]) && rest[0] != '+' && rest[0] != '-')))
    ensures ParseInt(pre + sign + rest) == None
  {
    ParseIntSigned(pre, sign, rest);
    assert rest != [] ==> DigitPrefixLength(rest, false) == 0;
  }
}
