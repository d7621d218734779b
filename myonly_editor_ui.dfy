/**
 * The two colour helpers of myonly/editor-ui.js: `getBrightColor`, which
 * lightens the colour a link is given, and `rgbToHex`, which turns a computed
 * `rgb(...)` colour into the `#rrggbb` form a colour input accepts.
 */
module MyonlyEditorUi {
  import opened Wrappers
  import opened JsText

  /** How a number, or `NaN` when there is none, prints inside a template string. */
  function Show(x: Option<nat>): (s: string)
    ensures x.Some? ==> s == Decimal(x.value)
  {
    if x.Some? then Decimal(x.value) else "NaN"
  }

  /** The colour `rgb(r, g, b)` as the browser writes it. */
  function Rgb(r: nat, g: nat, b: nat): string {
    "rgb(" + Decimal(r) + ", " + Decimal(g) + ", " + Decimal(b) + ")"
  }

  /** `Math.min(255, parseInt(runs[i]) + 40)`; a missing run is `NaN`, which stays `NaN`. */
  function Lighter(runs: seq<nat>, i: nat): (c: Option<nat>)
    ensures c.Some? <==> i < |runs|
    ensures c.Some? ==> 40 <= c.value <= 255 && (runs[i] <= 215 ==> c.value == runs[i] + 40)
  {
    if i < |runs| then Some(if runs[i] + 40 < 255 then runs[i] + 40 else 255) else None
  }

  predicate IsBlack(color: string) {
    color == "#000000" || color == "black" || color == "rgb(0, 0, 0)"
  }

  /**
   * `getBrightColor`: black stays black; a colour with digits is rebuilt from
   * its first three digit runs, each raised by 40 up to 255; any other colour
   * is returned as it is.
   */
  function GetBrightColor(color: string): (r: string)
    ensures IsBlack(color) ==> r == "#000000"
    ensures !IsBlack(color) && DigitRuns(color) == [] ==> r == color
  {
    if IsBlack(color) then "#000000"
    else
      var runs := DigitRuns(color);
      if runs == [] then color
      else "rgb(" + Show(Lighter(runs, 0)) + ", " + Show(Lighter(runs, 1)) + ", " + Show(Lighter(runs, 2)) + ")"
  }

  /** The digit runs of `rgb(r, g, b)` are `r`, `g` and `b`. */
  lemma RgbRuns(r: nat, g: nat, b: nat)
    ensures DigitRuns(Rgb(r, g, b)) == [r, g, b]
  {
    var t1 := Decimal(g) + (", " + (Decimal(b) + ")"));
    var t0 := ", " + t1;
    RgbShape(r, g, b);
    TailRuns(g, b);
    DigitRunsSkip(", ", t1);
    assert DigitRuns(t0) == [g, b];
    assert t0[0] == ',';
    DigitRunsAfterNumber(r, t0);
    var u := Decimal(r) + t0;
    assert DigitRuns(u) == [r, g, b];
    assert Rgb(r, g, b) == "rgb(" + u;
    assert forall i :: 0 <= i < |"rgb("| ==> !IsDigit("rgb("[i]);
    DigitRunsSkip("rgb(", u);
  }

  /** `rgb(r, g, b)` grouped from the right, as the readers take it apart. */
  lemma RgbShape(r: nat, g: nat, b: nat)
    ensures Rgb(r, g, b) == "rgb(" + (Decimal(r) + (", " + (Decimal(g) + (", " + (Decimal(b) + ")")))))
  {
  }

  /** The digit runs of `g, b)` are `g` and `b`. */
  lemma TailRuns(g: nat, b: nat)
    ensures DigitRuns(Decimal(g) + (", " + (Decimal(b) + ")"))) == [g, b]
  {
    var t3 := Decimal(b) + ")";
    var t2 := ", " + t3;
    DigitRunsSkip(")", []);
    assert ")" + [] == ")";
    DigitRunsAfterNumber(b, ")");
    DigitRunsSkip(", ", t3);
    DigitRunsAfterNumber(g, t2);
  }

  /** `rgb(r, g, b)` is black only as `rgb(0, 0, 0)`. */
  lemma RgbBlack(r: nat, g: nat, b: nat)
    requires r > 0
    ensures !IsBlack(Rgb(r, g, b))
  {
    var s := Rgb(r, g, b);
    assert s[4] == Decimal(r)[0];
    if s == "rgb(0, 0, 0)" {
      DecimalLeadingZero(r);
    }
  }

  /**
   * A colour with three digit runs that is not black comes back as
   * `rgb(r, g, b)` whose components are the originals raised by 40, capped
   * at 255, and so at least 40.
   */
  lemma BrightComponents(color: string)
    requires !IsBlack(color) && |DigitRuns(color)| >= 3
    ensures var runs := DigitRuns(color);
      var r := Lighter(runs, 0).value;
      var g := Lighter(runs, 1).value;
      var b := Lighter(runs, 2).value;
      GetBrightColor(color) == Rgb(r, g, b) && DigitRuns(GetBrightColor(color)) == [r, g, b]
      && 40 <= r <= 255 && 40 <= g <= 255 && 40 <= b <= 255
  {
    var runs := DigitRuns(color);
    RgbRuns(Lighter(runs, 0).value, Lighter(runs, 1).value, Lighter(runs, 2).value);
  }

  /**
   * Lightening a lightened colour adds 40 once more, up to 255: applied to
   * its own result, `getBrightColor` raises each component by 80 in all.
   */
  lemma {:induction false} BrightTwice(color: string)
    requires !IsBlack(color) && |DigitRuns(color)| >= 3
    ensures var runs := DigitRuns(color);
      GetBrightColor(GetBrightColor(color)) == Rgb(Cap(runs[0] + 80), Cap(runs[1] + 80), Cap(runs[2] + 80))
  {
    var runs := DigitRuns(color);
    BrightComponents(color);
    var once := GetBrightColor(color);
    RgbBlack(Lighter(runs, 0).value, Lighter(runs, 1).value, Lighter(runs, 2).value);
    BrightComponents(once);
  }

  function Cap(x: nat): (c: nat)
    ensures c <= 255 && (c == x || c == 255)
  {
    if x < 255 then x else 255
  }

  /** A colour with fewer than three digit runs prints `NaN` for each missing one. */
  lemma BrightMissingRuns(color: string)
    requires !IsBlack(color) && |DigitRuns(color)| == 1
    ensures GetBrightColor(color) == "rgb(" + Decimal(Lighter(DigitRuns(color), 0).value) + ", NaN, NaN)"
  {
  }

  /** `\d+` at the start of `s`: the value of the longest digit run and what follows it. */
  function Digits(s: string): (r: Option<(nat, string)>)
    ensures r.Some? <==> s != [] && IsDigit(s[0])
    ensures r.Some? ==> (|r.value.1| < |s| && s[|s| - |r.value.1|..] == r.value.1
      && (r.value.1 == [] || !IsDigit(r.value.1[0])))
  {
    var n := DigitPrefixLength(s, false);
    if n == 0 then None else Some((DigitsValue(s[..n], false), s[n..]))
  }

  /** The digits `String(n)` writes, followed by a non-digit, read back as `n`. */
  lemma DigitsOfDecimal(n: nat, q: string)
    requires q == [] || !IsDigit(q[0])
    ensures Digits(Decimal(n) + q) == Some((n, q))
  {
    var d := Decimal(n);
    DigitPrefixOfDigits(d, q, false);
    assert (d + q)[..|d|] == d;
    assert (d + q)[|d|..] == q;
    DecimalValue(n);
  }

  function StartsWith(s: string, prefix: string): bool {
    |prefix| <= |s| && s[..|prefix|] == prefix
  }

  /** `,\s*` at the start of `s`: what follows the comma and the white space after it. */
  function Comma(s: string): (r: Option<string>)
    ensures r.Some? ==> |r.value| < |s| && s[|s| - |r.value|..] == r.value && (r.value == [] || !IsSpace(r.value[0]))
  {
    if StartsWith(s, ",") then Some(TrimStart(s[1..])) else None
  }

  /** `(\d+)\)` at the start of `s`. */
  function Last(s: string): (r: Option<nat>)
    ensures r.Some? ==> Digits(s).Some?
  {
    var d := Digits(s);
    if d.Some? && StartsWith(d.value.1, ")") then Some(d.value.0) else None
  }

  /** `(\d+),\s*(\d+)\)` at the start of `s`. */
  function Pair(s: string): (r: Option<(nat, nat)>)
    ensures r.Some? ==> Digits(s).Some?
  {
    var d := Digits(s);
    if d.None? then None
    else
      var c := Comma(d.value.1);
      if c.None? || Last(c.value).None? then None
      else Some((d.value.0, Last(c.value).value))
  }

  /** `(\d+),\s*(\d+),\s*(\d+)\)` at the start of `s`. */
  function Triple(s: string): (r: Option<(nat, nat, nat)>)
    ensures r.Some? ==> Digits(s).Some?
  {
    var d := Digits(s);
    if d.None? then None
    else
      var c := Comma(d.value.1);
      if c.None? || Pair(c.value).None? then None
      else Some((d.value.0, Pair(c.value).value.0, Pair(c.value).value.1))
  }

  /**
   * `/rgb\((\d+),\s*(\d+),\s*(\d+)\)/` matched at the very start of `s`.
   * Taking each `\d+` and `\s*` as long as it goes is the only way the
   * pattern can match: a shorter digit run is followed by a digit, not by
   * `,` or `)`, and a shorter run of white space by white space, not by a
   * digit. `\s` is the white space `trim` removes.
   */
  function MatchRgb(s: string): (r: Option<(nat, nat, nat)>)
    ensures r.Some? ==> StartsWith(s, "rgb(")
  {
    if StartsWith(s, "rgb(") then Triple(s[4..]) else None
  }

  /** `s.match(...)` without the `g` flag, looking from index `k` on: the first place where the pattern matches. */
  function FindRgb(s: string, k: nat): (r: Option<(nat, nat, nat)>)
    requires k <= |s|
    decreases |s| - k
  {
    if MatchRgb(s[k..]).Some? then MatchRgb(s[k..])
    else if k == |s| then None
    else FindRgb(s, k + 1)
  }

  /** No match of the pattern starts before index `k`. */
  predicate NoMatchBefore(s: string, k: nat)
    requires k <= |s| + 1
  {
    forall j :: 0 <= j < k ==> MatchRgb(s[j..]).None?
  }

  /**
   * The search finds the leftmost match: nothing when the pattern matches
   * nowhere, and otherwise the match at the first index where it does.
   */
  lemma {:induction false} FindRgbLeftmost(s: string, k: nat)
    requires k <= |s| && NoMatchBefore(s, k)
    ensures FindRgb(s, k).None? <==> NoMatchBefore(s, |s| + 1)
    ensures FindRgb(s, k).Some? ==>
      (exists i :: k <= i <= |s| && NoMatchBefore(s, i) && MatchRgb(s[i..]) == FindRgb(s, k))
    decreases |s| - k
  {
    if MatchRgb(s[k..]).Some? {
      assert !NoMatchBefore(s, |s| + 1) by {
        assert MatchRgb(s[k..]).Some?;
      }
    } else if k == |s| {
    } else {
      FindRgbLeftmost(s, k + 1);
    }
  }

  /** Two lower-case hexadecimal digits, `n.toString(16).padStart(2, '0')`. */
  function HexPair(n: nat): string {
    PadStart2(Hex(n))
  }

  /** `#rrggbb`, each component as `HexPair` writes it. */
  function HexColor(r: nat, g: nat, b: nat): string {
    "#" + HexPair(r) + HexPair(g) + HexPair(b)
  }

  /**
   * `rgbToHex`: nothing for a missing or empty colour, a `#` colour as it
   * is, `#` and the three components in hexadecimal for the first
   * `rgb(r, g, b)` in the text, and nothing otherwise.
   */
  function RgbToHex(rgb: Option<string>): (r: Option<string>)
    ensures rgb.None? || rgb == Some("") ==> r.None?
    ensures rgb.Some? && StartsWith(rgb.value, "#") ==> r == rgb
    ensures rgb.Some? && rgb.value != "" && !StartsWith(rgb.value, "#") ==>
      (r.Some? <==> FindRgb(rgb.value, 0).Some?)
  {
    if rgb.None? || rgb.value == "" then None
    else if rgb.value[0] == '#' then rgb
    else match FindRgb(rgb.value, 0)
      case None => None
      case Some((red, green, blue)) => Some(HexColor(red, green, blue))
  }

  /** A component below 256 takes exactly two digits, which read back as that component. */
  lemma HexPairValue(n: nat)
    requires n < 256
    ensures var p := HexPair(n);
      |p| == 2 && (forall i :: 0 <= i < 2 ==> HexDigitValue(p[i]).Some?) && DigitsValue(p, true) == n
  {
    var h := Hex(n);
    HexValue(n);
    if |h| == 1 {
      assert HexPair(n) == "0" + h;
      HexLeadingZero(h);
    }
  }

  /** A component of 256 or more is not clamped: it takes more than two digits. */
  lemma HexPairWide(n: nat)
    requires n >= 256
    ensures |HexPair(n)| > 2
  {
    HexWide(n);
  }

  /**
   * Components up to 255 give a seven-character `#rrggbb` whose digit pairs
   * read back as `r`, `g` and `b`.
   */
  lemma HexColorValues(r: nat, g: nat, b: nat)
    requires r < 256 && g < 256 && b < 256
    ensures var h := HexColor(r, g, b);
      |h| == 7 && h[0] == '#'
      && (forall i :: 1 <= i < 7 ==> HexDigitValue(h[i]).Some?)
      && DigitsValue(h[1..3], true) == r
      && DigitsValue(h[3..5], true) == g
      && DigitsValue(h[5..7], true) == b
  {
    HexPairValue(r);
    HexPairValue(g);
    HexPairValue(b);
    var h := HexColor(r, g, b);
    assert h[1..3] == HexPair(r);
    assert h[3..5] == HexPair(g);
    assert h[5..7] == HexPair(b);
  }

  /** What the browser writes, `rgb(r, g, b)`, becomes `#rrggbb` of the same components. */
  lemma RgbToHexOfRgb(r: nat, g: nat, b: nat)
    ensures RgbToHex(Some(Rgb(r, g, b))) == Some(HexColor(r, g, b))
  {
    MatchRgbOfRgb(r, g, b);
    RgbToHexOfMatch(Rgb(r, g, b), (r, g, b));
  }

  /** A text the pattern matches at its start is converted from the components read. */
  lemma RgbToHexOfMatch(s: string, c: (nat, nat, nat))
    requires MatchRgb(s) == Some(c)
    ensures RgbToHex(Some(s)) == Some(HexColor(c.0, c.1, c.2))
  {
    MatchAtStart(s, c);
    var rgb := Some(s);
    assert !(rgb.None? || rgb.value == "") && rgb.value[0] != '#';
  }

  /** The scan finds a match that starts at index 0, and such a text starts with `r`. */
  lemma MatchAtStart(s: string, c: (nat, nat, nat))
    requires MatchRgb(s) == Some(c)
    ensures |s| >= 4 && s[0] == 'r' && FindRgb(s, 0) == Some(c)
  {
    assert s[..4] == "rgb(";
    assert s[0] == s[..4][0];
    assert s[0..] == s;
  }

  /** The pattern reads `r`, `g` and `b` back from `rgb(r, g, b)`. */
  lemma MatchRgbOfRgb(r: nat, g: nat, b: nat)
    ensures MatchRgb(Rgb(r, g, b)) == Some((r, g, b))
  {
    var t0 := Decimal(r) + (", " + (Decimal(g) + (", " + (Decimal(b) + ")"))));
    var s := Rgb(r, g, b);
    assert s == "rgb(" + t0;
    assert s[..4] == "rgb(";
    assert s[4..] == t0;
    TripleOf(r, g, b);
  }

  lemma TripleOf(r: nat, g: nat, b: nat)
    ensures Triple(Decimal(r) + (", " + (Decimal(g) + (", " + (Decimal(b) + ")"))))) == Some((r, g, b))
  {
    var t1 := Decimal(g) + (", " + (Decimal(b) + ")"));
    DigitsOfDecimal(r, ", " + t1);
    CommaSpace(t1);
    PairOf(g, b);
  }

  lemma PairOf(g: nat, b: nat)
    ensures Pair(Decimal(g) + (", " + (Decimal(b) + ")"))) == Some((g, b))
  {
    var t3 := Decimal(b) + ")";
    DigitsOfDecimal(g, ", " + t3);
    CommaSpace(t3);
    LastOf(b);
  }

  lemma LastOf(b: nat)
    ensures Last(Decimal(b) + ")") == Some(b)
  {
    DigitsOfDecimal(b, ")");
    assert StartsWith(")", ")");
  }

  /** `, ` before something that does not start with white space. */
  lemma CommaSpace(t: string)
    requires t == [] || !IsSpace(t[0])
    ensures Comma(", " + t) == Some(t)
  {
    assert StartsWith(", " + t, ",");
    assert (", " + t)[1..] == [' '] + t;
    assert TrimStart([' '] + t) == TrimStart(t) by {
      assert ([' '] + t)[1..] == t;
    }
  }

  /**
   * A lightened colour always converts, to the `#rrggbb` of its lightened
   * components, which `HexColorValues` reads back.
   */
  lemma BrightToHex(color: string)
    requires !IsBlack(color) && |DigitRuns(color)| >= 3
    ensures var runs := DigitRuns(color);
      RgbToHex(Some(GetBrightColor(color)))
        == Some(HexColor(Lighter(runs, 0).value, Lighter(runs, 1).value, Lighter(runs, 2).value))
  {
    var runs := DigitRuns(color);
    BrightComponents(color);
    RgbToHexOfRgb(Lighter(runs, 0).value, Lighter(runs, 1).value, Lighter(runs, 2).value);
  }
}
