/**
 * `rgbToHex` of the grok variant: the first three digit runs of an inline
 * colour packed as `(1 << 24) + (r << 16) + (g << 8) + b`, written in base 16
 * with the leading `1` cut off. The shifts are JavaScript's: both operands
 * go through ToInt32 (section 7.1.6 of ECMA-262) and so does the result.
 */
module GrokScript {
  import opened Wrappers
  import opened JsText
  import MyonlyEditorUi

  const TwoTo32: int := 0x1_0000_0000
  const TwoTo31: int := 0x8000_0000

  /** ToInt32: the 32-bit two's-complement value congruent to `x`. */
  function ToInt32(x: int): (r: int)
    ensures -TwoTo31 <= r < TwoTo31
    ensures (x - r) % TwoTo32 == 0
    ensures -TwoTo31 <= x < TwoTo31 ==> r == x
  {
    var m := x % TwoTo32;
    if m >= TwoTo31 then m - TwoTo32 else m
  }

  function Pow2(k: nat): (p: nat)
    ensures p >= 1
  {
    if k == 0 then 1 else 2 * Pow2(k - 1)
  }

  /** `x << k` on a number: shift the 32-bit value and read it back as signed. */
  function ShiftLeft(x: int, k: nat): (r: int)
    requires k < 32
    ensures -TwoTo31 <= r < TwoTo31
    ensures 0 <= x && x * Pow2(k) < TwoTo31 ==> r == x * Pow2(k)
  {
    var p := Pow2(k);
    if 0 <= x && x * p < TwoTo31 then
      AtMostProduct(x, p);
      ToInt32(x * p)
    else
      ToInt32(ToInt32(x) * p)
  }

  lemma AtMostProduct(x: int, p: int)
    requires 0 <= x && 1 <= p
    ensures x <= x * p
  {
    assert x * p == x + x * (p - 1);
  }

  /** `Number.prototype.toString(16)` on a whole number: a `-` before the digits of a negative one. */
  function NumberHex(z: int): (s: string)
    ensures |s| >= 1
    ensures z >= 0 ==> s == Hex(z)
    ensures z < 0 ==> s == "-" + Hex(-z)
  {
    if z < 0 then "-" + Hex(-z) else Hex(z)
  }

  /** The colour the picker shows when the element has no inline colour. */
  const DefaultColor: string := "#f8bbd0"

  /**
   * `rgbToHex(rgb)`. `None` is the `TypeError` the call throws when the text
   * has no digits (`match` gives null). With fewer than three numbers `b` is
   * `undefined`, the sum is NaN and the result is `#` and `"NaN".slice(1)`.
   */
  function RgbToHex(rgb: string): (r: Option<string>)
    ensures rgb == "" ==> r == Some(DefaultColor)
    ensures rgb != "" ==> (r.None? <==> DigitRuns(rgb) == [])
    ensures rgb != "" && 1 <= |DigitRuns(rgb)| < 3 ==> r == Some("#aN")
    ensures r.Some? ==> |r.value| >= 1 && r.value[0] == '#'
  {
    if rgb == "" then Some(DefaultColor)
    else
      var runs := DigitRuns(rgb);
      if runs == [] then None
      else if |runs| < 3 then Some("#aN")
      else
        Some("#" + NumberHex(Pack(runs[0], runs[1], runs[2]))[1..])
  }

  /** `(1 << 24) + (r << 16) + (g << 8) + b`. */
  function Pack(r: int, g: int, b: int): int {
    0x100_0000 + ShiftLeft(r, 16) + ShiftLeft(g, 8) + b
  }

  /** Appending two hexadecimal digits: `256 x + y` is the digits of `x` then those of `y`, padded to two. */
  lemma HexAppendPair(x: nat, y: nat)
    requires x >= 1 && y < 256
    ensures Hex(256 * x + y) == Hex(x) + MyonlyEditorUi.HexPair(y)
  {
    var n := 256 * x + y;
    var q := 16 * x + y / 16;
    DivMod16(n, q, y % 16);
    DivMod16(q, x, y / 16);
    assert Hex(n) == Hex(q) + [HexChar(y % 16)];
    assert Hex(q) == Hex(x) + [HexChar(y / 16)];
    if y < 16 {
      assert HexChar(0) == '0';
      assert MyonlyEditorUi.HexPair(y) == "0" + [HexChar(y)];
    } else {
      DivMod16(y, y / 16, y % 16);
      assert Hex(y) == Hex(y / 16) + [HexChar(y % 16)];
      assert MyonlyEditorUi.HexPair(y) == [HexChar(y / 16)] + [HexChar(y % 16)];
    }
  }

  /** Division by 16 of `16 q + d` with a digit `d`. */
  lemma DivMod16(n: int, q: int, d: int)
    requires n == 16 * q + d && 0 <= d < 16
    ensures n / 16 == q && n % 16 == d
  {
  }

  lemma Pow2Shifts()
    ensures Pow2(8) == 256 && Pow2(16) == 65536
  {
    assert Pow2(2) == 4;
    assert Pow2(4) == 16;
    assert Pow2(6) == 64;
    assert Pow2(8) == 256;
    assert Pow2(10) == 1024;
    assert Pow2(12) == 4096;
    assert Pow2(14) == 16384;
  }

  /** `1rrggbb` in base 16: the leading `1`, then two digits for each component. */
  lemma PackedHex(r: nat, g: nat, b: nat)
    requires r < 256 && g < 256 && b < 256
    ensures Hex(0x100_0000 + r * 65536 + g * 256 + b)
      == "1" + MyonlyEditorUi.HexPair(r) + MyonlyEditorUi.HexPair(g) + MyonlyEditorUi.HexPair(b)
  {
    HexOfPacked(0x100_0000 + r * 65536 + g * 256 + b, 256 + r, 256 * (256 + r) + g, r, g, b);
  }

  /** The same, with the two intermediate quotients named: `n = 256 x2 + b`, `x2 = 256 x1 + g`, `x1 = 256 + r`. */
  lemma HexOfPacked(n: nat, x1: nat, x2: nat, r: nat, g: nat, b: nat)
    requires r < 256 && g < 256 && b < 256
    requires x1 == 256 + r && x2 == 256 * x1 + g && n == 256 * x2 + b
    ensures Hex(n) == "1" + MyonlyEditorUi.HexPair(r) + MyonlyEditorUi.HexPair(g) + MyonlyEditorUi.HexPair(b)
  {
    HexAppendPair(x2, b);
    HexAppendPair(x1, g);
    HexAppendPair(1, r);
    assert Hex(1) == "1";
  }

  /** While the shifted values stay below 2^31 the numbers are packed without wrapping. */
  lemma PackedRuns(s: string, r: nat, g: nat, b: nat)
    requires s != "" && DigitRuns(s) == [r, g, b] && r < 0x8000 && g < 0x80_0000
    ensures RgbToHex(s) == Some("#" + Hex(0x100_0000 + r * 65536 + g * 256 + b)[1..])
  {
    PackValue(r, g, b);
  }

  lemma PackValue(r: nat, g: nat, b: nat)
    requires r < 0x8000 && g < 0x80_0000
    ensures Pack(r, g, b) == 0x100_0000 + r * 65536 + g * 256 + b
  {
    Pow2Shifts();
  }

  /** `rgb(r, g, b)` with components small enough not to wrap is packed without wrapping. */
  lemma RgbPacked(r: nat, g: nat, b: nat, n: nat)
    requires r < 0x8000 && g < 0x80_0000 && n == 0x100_0000 + r * 65536 + g * 256 + b
    ensures RgbToHex(MyonlyEditorUi.Rgb(r, g, b)) == Some("#" + Hex(n)[1..])
  {
    MyonlyEditorUi.RgbRuns(r, g, b);
    MyonlyEditorUi.RgbShape(r, g, b);
    PackedRuns(MyonlyEditorUi.Rgb(r, g, b), r, g, b);
  }

  /**
   * For components up to 255 the packed number is `1rrggbb` in base 16, so
   * the result is the same `#rrggbb` as the other variant's `rgbToHex`: the
   * `1 << 24` term keeps every leading zero.
   */
  lemma RgbToHexOfRgb(r: nat, g: nat, b: nat)
    requires r < 256 && g < 256 && b < 256
    ensures RgbToHex(MyonlyEditorUi.Rgb(r, g, b)) == Some(MyonlyEditorUi.HexColor(r, g, b))
  {
    var s := MyonlyEditorUi.Rgb(r, g, b);
    var hr, hg, hb := MyonlyEditorUi.HexPair(r), MyonlyEditorUi.HexPair(g), MyonlyEditorUi.HexPair(b);
    var packed := Hex(0x100_0000 + r * 65536 + g * 256 + b);
    assert RgbToHex(s) == Some("#" + packed[1..]) by {
      MyonlyEditorUi.RgbRuns(r, g, b);
      assert s[0] == 'r';
      PackedRuns(s, r, g, b);
    }
    PackedHex(r, g, b);
    DropLeading("1", hr, hg, hb);
  }

  /** Dropping a one-character head and putting another in its place. */
  lemma DropLeading(c: string, x: string, y: string, z: string)
    requires |c| == 1
    ensures "#" + (c + x + y + z)[1..] == "#" + x + y + z
  {
    assert (c + x + y + z)[1..] == x + y + z;
  }

  /**
   * What a colour input accepts as the colour `r, g, b`: `#` and six
   * lower-case hexadecimal digits whose pairs read as `r`, `g` and `b`.
   */
  predicate PickerValue(v: string, r: nat, g: nat, b: nat) {
    |v| == 7 && v[0] == '#'
    && (forall i :: 1 <= i < 7 ==> HexDigitValue(v[i]).Some? && !('A' <= v[i] <= 'F'))
    && DigitsValue(v[1..3], true) == r
    && DigitsValue(v[3..5], true) == g
    && DigitsValue(v[5..7], true) == b
  }

  /**
   * The picker's value has seven characters, six of them lower-case
   * hexadecimal digits, and its pairs read back as `r`, `g` and `b`.
   */
  lemma RgbToHexDigits(r: nat, g: nat, b: nat)
    requires r < 256 && g < 256 && b < 256
    ensures RgbToHex(MyonlyEditorUi.Rgb(r, g, b)).Some?
    ensures PickerValue(RgbToHex(MyonlyEditorUi.Rgb(r, g, b)).value, r, g, b)
  {
    RgbToHexOfRgb(r, g, b);
    MyonlyEditorUi.HexColorValues(r, g, b);
    HexColorLower(r, g, b);
  }

  /** `#rrggbb` has no upper-case digit. */
  lemma HexColorLower(r: nat, g: nat, b: nat)
    requires r < 256 && g < 256 && b < 256
    ensures var h := MyonlyEditorUi.HexColor(r, g, b);
      forall i :: 1 <= i < |h| ==> !('A' <= h[i] <= 'F')
  {
    var h := MyonlyEditorUi.HexColor(r, g, b);
    var pr, pg, pb := MyonlyEditorUi.HexPair(r), MyonlyEditorUi.HexPair(g), MyonlyEditorUi.HexPair(b);
    HexPairLower(r);
    HexPairLower(g);
    HexPairLower(b);
    assert h == "#" + pr + pg + pb;
    forall i | 1 <= i < |h| ensures !('A' <= h[i] <= 'F') {
      if i < 1 + |pr| {
        assert h[i] == pr[i - 1];
      } else if i < 1 + |pr| + |pg| {
        assert h[i] == pg[i - 1 - |pr|];
      } else {
        assert h[i] == pb[i - 1 - |pr| - |pg|];
      }
    }
  }

  /** The two digits of a component are lower-case. */
  lemma HexPairLower(n: nat)
    ensures var p := MyonlyEditorUi.HexPair(n);
      forall i :: 0 <= i < |p| ==> !('A' <= p[i] <= 'F')
  {
    var d := Hex(n);
    var p := MyonlyEditorUi.HexPair(n);
    if |d| < 2 {
      forall i | 0 <= i < |p| ensures !('A' <= p[i] <= 'F') {
        if i >= 2 - |d| {
          assert p[i] == p[2 - |d|..][i - (2 - |d|)] == d[i - (2 - |d|)];
        }
      }
    }
  }

  /** Distinct colours with components up to 255 give distinct picker values. */
  lemma RgbToHexInjective(r: nat, g: nat, b: nat, r': nat, g': nat, b': nat)
    requires r < 256 && g < 256 && b < 256 && r' < 256 && g' < 256 && b' < 256
    requires RgbToHex(MyonlyEditorUi.Rgb(r, g, b)) == RgbToHex(MyonlyEditorUi.Rgb(r', g', b'))
    ensures r == r' && g == g' && b == b'
  {
    RgbToHexDigits(r, g, b);
    RgbToHexDigits(r', g', b');
  }

  /**
   * Only the first three numbers count: an `rgba(r, g, b, a)` colour, whose
   * alpha adds more digit runs, gives the same value as `rgb(r, g, b)`.
   */
  lemma ExtraRunsIgnored(s: string, t: string)
    requires s != "" && t != ""
    requires |DigitRuns(s)| >= 3 && |DigitRuns(t)| >= 3 && DigitRuns(s)[..3] == DigitRuns(t)[..3]
    ensures RgbToHex(s) == RgbToHex(t)
  {
    var rs, rt := DigitRuns(s), DigitRuns(t);
    assert rs[0] == rt[0] && rs[1] == rt[1] && rs[2] == rt[2] by {
      assert rs[0] == rs[..3][0] && rs[1] == rs[..3][1] && rs[2] == rs[..3][2];
      assert rt[0] == rt[..3][0] && rt[1] == rt[..3][1] && rt[2] == rt[..3][2];
    }
    var sum := Pack(rs[0], rs[1], rs[2]);
    assert RgbToHex(s) == Some("#" + NumberHex(sum)[1..]);
    assert RgbToHex(t) == Some("#" + NumberHex(sum)[1..]);
  }

  /**
   * A component above 255 is not clamped: a green of 256 carries into the
   * red pair, so `rgb(r, 256, b)` gives the same value as `rgb(r + 1, 0, b)`.
   */
  lemma WideComponentCarries(r: nat, b: nat)
    requires r < 255 && b < 256
    ensures RgbToHex(MyonlyEditorUi.Rgb(r, 256, b)) == RgbToHex(MyonlyEditorUi.Rgb(r + 1, 0, b))
  {
    var n := 0x100_0000 + (r + 1) * 65536 + b;
    RgbPacked(r, 256, b, n);
    RgbPacked(r + 1, 0, b, n);
  }

}
