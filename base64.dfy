/**
 * `btoa` and `atob`: base 64 with padding as section 4 of RFC 4648 defines
 * it, and the forgiving decoder of the WHATWG Infra standard that `atob`
 * runs. A string handed to `btoa` is a sequence of UTF-16 code units; any
 * unit above 0xFF makes `btoa` throw, which is `None` here.
 */
module Base64 {
  import opened Wrappers

  type Byte = x: int | 0 <= x < 256
  type Sextet = x: int | 0 <= x < 64

  /** Table 1 of RFC 4648: the character that stands for a 6-bit value. */
  function Char(v: Sextet): (c: char)
    ensures c != '=' && !IsAsciiSpace(c)
  {
    if v < 26 then ('A' as int + v) as char
    else if v < 52 then ('a' as int + v - 26) as char
    else if v < 62 then ('0' as int + v - 52) as char
    else if v == 62 then '+' else '/'
  }

  /** The 6-bit value an alphabet character stands for, `None` for any other character. */
  function Value(c: char): (r: Option<Sextet>)
    ensures r.Some? ==> Char(r.value) == c
  {
    if 'A' <= c <= 'Z' then Some(c as int - 'A' as int)
    else if 'a' <= c <= 'z' then Some(c as int - 'a' as int + 26)
    else if '0' <= c <= '9' then Some(c as int - '0' as int + 52)
    else if c == '+' then Some(62)
    else if c == '/' then Some(63)
    else None
  }

  /** Every alphabet character is read back as the value it was written for. */
  lemma ValueOfChar(v: Sextet)
    ensures Value(Char(v)) == Some(v)
  {
  }

  /**
   * The 6-bit groups of a byte sequence, most significant bits first: three
   * bytes give four groups, and a final one or two bytes give two or three
   * groups with zero bits appended.
   */
  function Sextets(b: seq<Byte>): (x: seq<Sextet>)
    ensures |x| % 4 != 1
    ensures |x| % 4 == 0 <==> |b| % 3 == 0
    ensures |x| % 4 == 2 <==> |b| % 3 == 1
  {
    if |b| == 0 then []
    else if |b| == 1 then [b[0] / 4, (b[0] % 4) * 16]
    else if |b| == 2 then [b[0] / 4, (b[0] % 4) * 16 + b[1] / 16, (b[1] % 16) * 4]
    else [b[0] / 4, (b[0] % 4) * 16 + b[1] / 16, (b[1] % 16) * 4 + b[2] / 64, b[2] % 64] + Sextets(b[3..])
  }

  function Chars(x: seq<Sextet>): (s: string)
    ensures |s| == |x| && forall i :: 0 <= i < |x| ==> s[i] == Char(x[i])
  {
    seq(|x|, i requires 0 <= i < |x| => Char(x[i]))
  }

  /** `=` signs that bring a group count up to a multiple of four. */
  function Padding(n: nat): string {
    if n % 4 == 2 then "==" else if n % 4 == 3 then "=" else ""
  }

  /** Base 64 encoding with padding (section 4 of RFC 4648). */
  function Encode(b: seq<Byte>): (s: string)
    ensures |s| % 4 == 0
    ensures |s| == 4 * ((|b| + 2) / 3)
  {
    EncodedLength(b);
    Chars(Sextets(b)) + Padding(|Sextets(b)|)
  }

  /** Four characters for every started group of three bytes. */
  lemma EncodedLength(b: seq<Byte>)
    ensures var x := Sextets(b); |Chars(x) + Padding(|x|)| == 4 * ((|b| + 2) / 3)
    ensures var x := Sextets(b); |Chars(x) + Padding(|x|)| % 4 == 0
  {
    var x := Sextets(b);
    SextetCount(b);
    var n := (|b| + 2) / 3;
    var len := |Chars(x) + Padding(|x|)|;
    assert len == |x| + |Padding(|x|)| == 4 * n;
    MultipleOfFour(len, n);
  }

  lemma MultipleOfFour(m: int, n: int)
    requires m == 4 * n
    ensures m % 4 == 0
  {
  }

  lemma SextetCount(b: seq<Byte>)
    ensures |Sextets(b)| + |Padding(|Sextets(b)|)| == 4 * ((|b| + 2) / 3)
  {
    var q, r := |b| / 3, |b| % 3;
    SextetLength(b);
    var c := if r == 0 then 0 else r + 1;
    assert |Sextets(b)| == 4 * q + c;
    ModFour(q, c);
    DivThree(|b|, q, r);
  }

  /** Four groups per full 3-byte group, and one more than the bytes of a final partial group. */
  lemma {:induction false} SextetLength(b: seq<Byte>)
    ensures |Sextets(b)| == 4 * (|b| / 3) + (if |b| % 3 == 0 then 0 else |b| % 3 + 1)
  {
    if |b| > 2 {
      SextetLength(b[3..]);
      assert |Sextets(b)| == 4 + |Sextets(b[3..])|;
      DivThree(|b|, |b| / 3, |b| % 3);
      DivThree(|b| - 3, |b| / 3 - 1, |b| % 3);
    }
  }

  lemma DivThree(n: nat, q: int, r: int)
    requires n == 3 * q + r && 0 <= r < 3
    ensures n / 3 == q && n % 3 == r
    ensures (n + 2) / 3 == if r == 0 then q else q + 1
  {
  }

  lemma ModFour(q: nat, c: nat)
    requires c < 4
    ensures (4 * q + c) % 4 == c
  {
  }

  /** ASCII white space, which the forgiving decoder skips. */
  predicate IsAsciiSpace(c: char) {
    c == '\t' || c == '\n' || c == '\U{C}' || c == '\r' || c == ' '
  }

  function RemoveSpaces(s: string): (r: string)
    ensures forall i :: 0 <= i < |r| ==> !IsAsciiSpace(r[i])
    ensures (forall i :: 0 <= i < |s| ==> !IsAsciiSpace(s[i])) ==> r == s
  {
    if s == [] then []
    else (if IsAsciiSpace(s[0]) then [] else [s[0]]) + RemoveSpaces(s[1..])
  }

  /** Step 2 of the forgiving decoder: a length divisible by four loses one or two final `=`. */
  function StripPadding(s: string): string {
    if |s| % 4 != 0 then s
    else if |s| >= 2 && s[|s| - 2..] == "==" then s[..|s| - 2]
    else if |s| >= 1 && s[|s| - 1] == '=' then s[..|s| - 1]
    else s
  }

  /** The byte whose bits are split over two consecutive 6-bit groups at offset 0, 2 or 4. */
  function Join(hi: Sextet, lo: Sextet, offset: int): Byte
    requires offset == 0 || offset == 2 || offset == 4
  {
    var h: int := hi;
    var l: int := lo;
    if offset == 0 then h * 4 + l / 16
    else if offset == 2 then (h % 16) * 16 + l / 4
    else (h % 4) * 64 + l
  }

  /** Bytes from 6-bit groups; a final partial group's leftover bits are dropped. */
  function FromSextets(x: seq<Sextet>): seq<Byte>
    requires |x| % 4 != 1
  {
    if |x| == 0 then []
    else if |x| == 2 then [Join(x[0], x[1], 0)]
    else if |x| == 3 then [Join(x[0], x[1], 0), Join(x[1], x[2], 2)]
    else [Join(x[0], x[1], 0), Join(x[1], x[2], 2), Join(x[2], x[3], 4)] + FromSextets(x[4..])
  }

  /**
   * The forgiving base 64 decoder: drop ASCII white space, drop the padding,
   * fail on a length of 4k+1 or on any character outside the alphabet, and
   * read the rest as 6-bit groups.
   */
  function Decode(s: string): (r: Option<seq<Byte>>)
    ensures var t := StripPadding(RemoveSpaces(s));
      r.Some? <==> |t| % 4 != 1 && forall i :: 0 <= i < |t| ==> Value(t[i]).Some?
    ensures var t := StripPadding(RemoveSpaces(s));
      r.Some? ==> |t| % 4 != 1 && AllInAlphabet(t) && r.value == FromSextets(Values(t))
  {
    var t := StripPadding(RemoveSpaces(s));
    if |t| % 4 == 1 then None
    else if exists i :: 0 <= i < |t| && Value(t[i]).None? then None
    else Some(FromSextets(Values(t)))
  }

  /** Every character of `t` is in the alphabet. */
  predicate AllInAlphabet(t: string) {
    forall i :: 0 <= i < |t| ==> Value(t[i]).Some?
  }

  /** The 6-bit values of the characters of `t`, in order. */
  function Values(t: string): (x: seq<Sextet>)
    requires AllInAlphabet(t)
    ensures |x| == |t| && forall i :: 0 <= i < |t| ==> Char(x[i]) == t[i]
  {
    seq(|t|, i requires 0 <= i < |t| => Value(t[i]).value)
  }

  lemma {:induction false} FromSextetsOfSextets(b: seq<Byte>)
    ensures FromSextets(Sextets(b)) == b
  {
    var x := Sextets(b);
    if |b| >= 3 {
      var head := [b[0] / 4, (b[0] % 4) * 16 + b[1] / 16, (b[1] % 16) * 4 + b[2] / 64, b[2] % 64];
      assert x == head + Sextets(b[3..]);
      assert x[4..] == Sextets(b[3..]);
      assert x[..4] == head;
      JoinGroup(b[0], b[1], b[2]);
      FromSextetsOfSextets(b[3..]);
      assert b == [b[0], b[1], b[2]] + b[3..];
    } else if |b| == 2 {
      JoinGroup(b[0], b[1], 0);
    } else if |b| == 1 {
      JoinGroup(b[0], 0, 0);
    }
  }

  /** The three bytes of a group come back from its four 6-bit groups. */
  lemma JoinGroup(b0: Byte, b1: Byte, b2: Byte)
    ensures Join(b0 / 4, (b0 % 4) * 16 + b1 / 16, 0) == b0
    ensures Join((b0 % 4) * 16 + b1 / 16, (b1 % 16) * 4 + b2 / 64, 2) == b1
    ensures Join((b1 % 16) * 4 + b2 / 64, b2 % 64, 4) == b2
  {
  }

  /** What the decoder is left with once it drops the padding of `Encode(b)`. */
  lemma StripPaddingOfEncode(b: seq<Byte>)
    ensures StripPadding(RemoveSpaces(Encode(b))) == Chars(Sextets(b))
  {
    var x := Sextets(b);
    var chars := Chars(x);
    var s := Encode(b);
    assert s == chars + Padding(|x|);
    forall i | 0 <= i < |s| ensures !IsAsciiSpace(s[i]) {
      if i < |chars| {
        assert s[i] == Char(x[i]);
      } else {
        assert s[i] == '=';
      }
    }
    assert RemoveSpaces(s) == s;
    StripPaddingOf(chars, |x|);
  }

  /** Dropping the padding after a run of alphabet characters leaves that run. */
  lemma StripPaddingOf(chars: string, n: nat)
    requires n % 4 != 1 && |chars| == n
    requires forall i :: 0 <= i < |chars| ==> chars[i] != '='
    ensures StripPadding(chars + Padding(n)) == chars
  {
    var s := chars + Padding(n);
    if n % 4 == 2 {
      assert |s| % 4 == 0 && s[|s| - 2..] == "==";
      assert s[..|s| - 2] == chars;
    } else if n % 4 == 3 {
      assert |s| % 4 == 0 && s[|s| - 1] == '=';
      assert s[|s| - 2..][0] == chars[n - 1] != '=';
      assert s[..|s| - 1] == chars;
    } else {
      assert Padding(n) == "" && s == chars && |s| % 4 == 0;
      if |s| >= 1 {
        assert s[|s| - 1] != '=';
        assert |s| >= 2 ==> s[|s| - 2..][1] == s[|s| - 1];
      }
    }
  }

  lemma ValuesOfChars(x: seq<Sextet>)
    ensures forall i :: 0 <= i < |x| ==> Value(Chars(x)[i]) == Some(x[i])
    ensures seq(|x|, i requires 0 <= i < |x| => Value(Chars(x)[i]).value) == x
  {
    forall i | 0 <= i < |x| ensures Value(Chars(x)[i]) == Some(x[i]) {
      ValueOfChar(x[i]);
    }
  }

  /** Decoding what `Encode` wrote gives back the bytes. */
  lemma DecodeEncode(b: seq<Byte>)
    ensures Decode(Encode(b)) == Some(b)
  {
    var x := Sextets(b);
    StripPaddingOfEncode(b);
    ValuesOfChars(x);
    FromSextetsOfSextets(b);
  }

  /** The code units of a string that `btoa` may encode all lie in 0..255. */
  predicate Latin1(units: seq<int>) {
    forall i :: 0 <= i < |units| ==> 0 <= units[i] < 256
  }

  function Units(s: string): (u: seq<int>)
    ensures |u| == |s| && forall i :: 0 <= i < |s| ==> u[i] == s[i] as int
  {
    seq(|s|, i requires 0 <= i < |s| => s[i] as int)
  }

  /** `btoa` over code units: `None` when a unit lies above 0xFF (the InvalidCharacterError). */
  function BtoaUnits(units: seq<int>): (r: Option<string>)
    ensures r.Some? <==> Latin1(units)
    ensures r.Some? ==> |r.value| % 4 == 0
  {
    if Latin1(units) then Some(Encode(seq(|units|, i requires 0 <= i < |units| && Latin1(units) => units[i] as Byte)))
    else None
  }

  /** `btoa(s)`. */
  function Btoa(s: string): (r: Option<string>)
    ensures r.Some? <==> Latin1(Units(s))
  {
    BtoaUnits(Units(s))
  }

  /** `atob(t)`: the decoded bytes as a string of code units 0..255; `None` when decoding fails. */
  function Atob(t: string): (r: Option<string>)
    ensures r.Some? ==> Latin1(Units(r.value))
  {
    var d := Decode(t);
    if d.None? then None
    else Some(seq(|d.value|, i requires 0 <= i < |d.value| => d.value[i] as char))
  }

  /** `atob` undoes `btoa` on every string `btoa` accepts. */
  lemma AtobBtoa(s: string)
    requires Latin1(Units(s))
    ensures Btoa(s).Some? && Atob(Btoa(s).value) == Some(s)
  {
    var u := Units(s);
    var b := seq(|u|, i requires 0 <= i < |u| && Latin1(u) => u[i] as Byte);
    DecodeEncode(b);
    assert Atob(Encode(b)).value == s;
  }
}
