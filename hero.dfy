/**
 * The editable hero texts of the home page, shared by myonly79/script.js and
 * qwenooooo/editor-ui.js: the dictionary they are saved to (text under the
 * element's `data-key`, the chosen colour variable under `<key>_color`), the
 * way a saved dictionary is put back on the page, and the colour prompt.
 */
module Hero {
  import opened Wrappers
  import opened JsText
  import Records

  /** An element `.editable-hero-text`: its `data-key`, its text and its `data-color` ("" when unset). */
  datatype HeroText = HeroText(key: string, text: string, color: string)

  function ColorKey(key: string): string { key + "_color" }

  /** The dictionary the save loop builds, element by element, later elements overwriting earlier ones. */
  function HeroData(els: seq<HeroText>): map<string, string>
    decreases |els|
  {
    if els == [] then map[]
    else
      var e := els[|els| - 1];
      var m := HeroData(els[..|els| - 1])[e.key := e.text];
      if e.color != "" then m[ColorKey(e.key) := e.color] else m
  }

  /** Element `i` is the one `document.querySelector('[data-key="…"]')` finds for its key. */
  predicate FirstWithKey(els: seq<HeroText>, i: nat)
    requires i < |els|
  {
    forall j :: 0 <= j < i ==> els[j].key != els[i].key
  }

  /**
   * A saved dictionary put back on the page: each key not ending in `_color`
   * sets the text of the first element with that key, and the colour when
   * the companion `<key>_color` holds a non-empty value.
   */
  function ApplyHero(data: map<string, string>, els: seq<HeroText>): (r: seq<HeroText>)
    ensures |r| == |els|
    ensures forall i :: 0 <= i < |els| ==> r[i].key == els[i].key
    ensures forall i :: 0 <= i < |els| && (els[i].key !in data || EndsWith(els[i].key, "_color")) ==> r[i] == els[i]
    ensures forall i :: 0 <= i < |els| && !FirstWithKey(els, i) ==> r[i] == els[i]
  {
    seq(|els|, i requires 0 <= i < |els| => Restored(data, els, i))
  }

  /** Element `i` of the page once `data` has been put back. */
  function Restored(data: map<string, string>, els: seq<HeroText>, i: nat): HeroText
    requires i < |els|
  {
    var e := els[i];
    if FirstWithKey(els, i) && e.key in data && !EndsWith(e.key, "_color") then
      var ck := ColorKey(e.key);
      e.(text := data[e.key], color := if ck in data && data[ck] != "" then data[ck] else e.color)
    else e
  }

  /** Keys the save/load round trip can tell apart: distinct, and none ending in `_color`. */
  predicate PlainKeys(els: seq<HeroText>) {
    Records.Distinct(Records.Keys(els, (e: HeroText) => e.key))
    && forall i :: 0 <= i < |els| ==> !EndsWith(els[i].key, "_color")
  }

  lemma ColorKeyEnds(k: string)
    ensures EndsWith(ColorKey(k), "_color")
    ensures forall k' :: ColorKey(k') == ColorKey(k) ==> k' == k
  {
    forall k' | ColorKey(k') == ColorKey(k) ensures k' == k {
      assert |k'| == |k|;
      assert ColorKey(k')[..|k'|] == k';
      assert ColorKey(k)[..|k|] == k;
    }
  }

  /** What the saved dictionary holds for each element of a page with plain keys. */
  lemma {:induction false} HeroDataAt(els: seq<HeroText>, i: nat)
    requires PlainKeys(els) && i < |els|
    ensures els[i].key in HeroData(els) && HeroData(els)[els[i].key] == els[i].text
    ensures (ColorKey(els[i].key) in HeroData(els) && HeroData(els)[ColorKey(els[i].key)] != "")
            <==> els[i].color != ""
    ensures els[i].color != "" ==> HeroData(els)[ColorKey(els[i].key)] == els[i].color
    decreases |els|
  {
    var n := |els| - 1;
    var init := els[..n];
    var e := els[n];
    ColorKeyEnds(els[i].key);
    ColorKeyEnds(e.key);
    assert PlainKeys(init) by {
      assert Records.Keys(init, (e: HeroText) => e.key) == Records.Keys(els, (e: HeroText) => e.key)[..n];
    }
    if i < n {
      HeroDataAt(init, i);
      assert els[i].key != e.key;
      assert ColorKey(els[i].key) != e.key;
    } else {
      if ColorKey(e.key) in HeroData(init) {
        HeroDataKeys(init, ColorKey(e.key));
      }
    }
  }

  /** Every key of the saved dictionary is an element key or an element's colour key. */
  lemma {:induction false} HeroDataKeys(els: seq<HeroText>, k: string)
    requires k in HeroData(els)
    ensures exists j :: 0 <= j < |els| && (els[j].key == k || ColorKey(els[j].key) == k)
    decreases |els|
  {
    var n := |els| - 1;
    if k != els[n].key && k != ColorKey(els[n].key) {
      HeroDataKeys(els[..n], k);
      var j :| 0 <= j < n && (els[..n][j].key == k || ColorKey(els[..n][j].key) == k);
      assert els[j] == els[..n][j];
    }
  }

  /**
   * Saving a page and loading the dictionary onto a page with the same keys
   * restores every text, and every colour that was set; an element whose
   * colour was unset keeps the colour it has.
   */
  lemma HeroRoundTrip(els: seq<HeroText>, page: seq<HeroText>)
    requires PlainKeys(els)
    requires Records.Keys(page, (e: HeroText) => e.key) == Records.Keys(els, (e: HeroText) => e.key)
    ensures forall i :: 0 <= i < |els| ==>
      ApplyHero(HeroData(els), page)[i] ==
        HeroText(els[i].key, els[i].text, if els[i].color != "" then els[i].color else page[i].color)
  {
    var ks := Records.Keys(els, (e: HeroText) => e.key);
    assert |page| == |els|;
    forall i | 0 <= i < |els|
      ensures ApplyHero(HeroData(els), page)[i] ==
        HeroText(els[i].key, els[i].text, if els[i].color != "" then els[i].color else page[i].color)
    {
      HeroDataAt(els, i);
      assert page[i].key == ks[i] == els[i].key;
      assert FirstWithKey(page, i) by {
        forall j | 0 <= j < i ensures page[j].key != page[i].key {
          assert page[j].key == ks[j];
        }
      }
    }
  }

  /** The twelve colour variables the prompt offers, `--color-1` to `--color-12`. */
  const Palette: seq<string> := [
    "--color-1", "--color-2", "--color-3", "--color-4", "--color-5", "--color-6",
    "--color-7", "--color-8", "--color-9", "--color-10", "--color-11", "--color-12"
  ]

  /**
   * `choice && colors[parseInt(choice) - 1]`: the colour variable picked by the
   * answer to the colour prompt (`None` for a cancelled prompt).
   */
  function ChosenColor(choice: Option<string>): (r: Option<string>)
    ensures r.Some? ==> r.value in Palette
    ensures r.Some? <==> choice.Some? && choice.value != "" && ParseInt(choice.value).Some?
                         && 1 <= ParseInt(choice.value).value <= 12
  {
    if choice.None? || choice.value == "" then None
    else
      var n := ParseInt(choice.value);
      if n.Some? && 1 <= n.value <= 12 then Some(Palette[n.value - 1]) else None
  }

  /** Typing the number of a palette entry picks that entry. */
  lemma ChooseByNumber(n: nat)
    requires 1 <= n <= 12
    ensures ChosenColor(Some(Decimal(n))) == Some(Palette[n - 1])
  {
    ParseIntOfDecimal(n);
  }
}
