/**
 * qwenooooo/editor-ui.js: the hero texts saved under `portfolio_hero` (the
 * text under the element's `data-key`, the colour variable under
 * `<key>_color`), read back on load, edited by double-click and a colour
 * prompt; and block titles copied from the rendered headers into the shared
 * `blocks` array. Prompt answers are parameters; a stored value that does
 * not parse makes `JSON.parse` throw, which is an outcome here.
 */
module QwenEditorUi {
  import opened Wrappers
  import opened Storage
  import opened Records
  import opened JsText
  import opened Hero
  import Dict
  import QwenBlocks

  /** `JSON.parse(localStorage.getItem('portfolio_hero') || '{}')`; `None` when it throws. */
  function ReadHero(slot: Slot<Dict.Dict<string>>): (r: Option<Dict.Dict<string>>)
    ensures r.None? <==> slot.Unparseable?
    ensures slot.Absent? ==> r == Some(Dict.Empty())
  {
    ReadOr(slot, Dict.Empty())
  }

  /** A colour key is never the key whose colour it holds, so saving a text keeps its colour. */
  lemma ColorKeyDiffers(key: string)
    ensures ColorKey(key) != key
  {
    assert |ColorKey(key)| == |key| + 6;
  }

  /** A rendered `.block`: its `data-id` and the text of its header. */
  datatype Header = Header(id: string, title: string)

  /**
   * The `forEach` of `saveBlockTitles` over the first n headers: for each in
   * turn, the first block with that id takes the header's text.
   */
  function AssignTitles(s: seq<QwenBlocks.Block>, hs: seq<Header>): (r: seq<QwenBlocks.Block>)
    ensures |r| == |s| && forall i :: 0 <= i < |s| ==> r[i].id == s[i].id && r[i].order == s[i].order && r[i].height == s[i].height
    decreases |hs|
  {
    if hs == [] then s
    else
      var n := |hs| - 1;
      UpdateFirst(AssignTitles(s, hs[..n]), QwenBlocks.BlockId(hs[n].id), (b: QwenBlocks.Block) => b.(title := hs[n].title))
  }

  function HeaderIds(hs: seq<Header>): seq<string> {
    Keys(hs, (h: Header) => h.id)
  }

  /**
   * With distinct block ids and one header per id, each block takes the
   * title of the header with its id, and a block with no header keeps its
   * title.
   */
  lemma {:induction false} TitlesAt(s: seq<QwenBlocks.Block>, hs: seq<Header>, k: nat)
    requires Distinct(QwenBlocks.Ids(s)) && Distinct(HeaderIds(hs)) && k < |s|
    ensures var at := IndexOf(HeaderIds(hs), s[k].id);
      AssignTitles(s, hs)[k] == if at.Some? then s[k].(title := hs[at.value].title) else s[k]
    decreases |hs|
  {
    if hs != [] {
      var n := |hs| - 1;
      var init := hs[..n];
      var ids := HeaderIds(hs);
      assert HeaderIds(init) == ids[..n];
      assert Distinct(HeaderIds(init)) by {
        forall a, c | 0 <= a < c < n ensures ids[..n][a] != ids[..n][c] {
          assert ids[..n][a] == ids[a] && ids[..n][c] == ids[c];
        }
      }
      TitlesAt(s, init, k);
      var prev := AssignTitles(s, init);
      var i := FindIndex(prev, QwenBlocks.BlockId(hs[n].id));
      assert AssignTitles(s, hs) == UpdateFirst(prev, QwenBlocks.BlockId(hs[n].id), (b: QwenBlocks.Block) => b.(title := hs[n].title));
      if i.Some? && i.value == k {
        assert HeaderIds(hs)[n] == s[k].id;
        assert IndexOf(HeaderIds(hs), s[k].id) == Some(n);
        assert s[k].id !in HeaderIds(init);
      } else {
        if i.Some? {
          assert prev[i.value].id == s[i.value].id;
          assert QwenBlocks.Ids(s)[i.value] != QwenBlocks.Ids(s)[k];
        } else {
          assert !QwenBlocks.BlockId(hs[n].id)(prev[k]);
        }
        assert s[k].id != HeaderIds(hs)[n];
        if s[k].id in HeaderIds(init) {
          assert IndexOf(HeaderIds(hs), s[k].id) == IndexOf(HeaderIds(init), s[k].id);
        } else {
          assert s[k].id !in HeaderIds(hs);
        }
      }
    }
  }

  /**
   * `saveBlockTitles`: every header's text goes into the first block with
   * its id; the array is saved, then `updateNavItems` sorts it in place by
   * order, after the save.
   */
  method SaveBlockTitles(list: QwenBlocks.BlockList, headers: seq<Header>)
    modifies list`blocks, list`saved
    ensures list.saved == Stored(AssignTitles(old(list.blocks), headers))
    ensures list.blocks == QwenBlocks.Sort(AssignTitles(old(list.blocks), headers))
  {
    var i := 0;
    while i < |headers|
      invariant 0 <= i <= |headers|
      invariant list.blocks == AssignTitles(old(list.blocks), headers[..i])
    {
      assert headers[..i + 1][..i] == headers[..i];
      var k := FindIndex(list.blocks, QwenBlocks.BlockId(headers[i].id));
      if k.Some? {
        list.blocks := list.blocks[k.value := list.blocks[k.value].(title := headers[i].title)];
      }
      i := i + 1;
    }
    assert headers[..i] == headers;
    list.SaveBlocks();
    list.blocks := QwenBlocks.Sort(list.blocks);
  }

  /** What a save of the hero dictionary ends with. */
  datatype Saving = Saved | Threw

  class HeroPage {
    /** The page's `.editable-hero-text` elements, in document order. */
    var page: seq<HeroText>
    /** `portfolio_hero` in `localStorage`. */
    var saved: Slot<Dict.Dict<string>>

    ghost predicate Valid()
      reads this
    {
      saved.Stored? ==> Dict.Valid(saved.value)
    }

    constructor (page: seq<HeroText>, saved: Slot<Dict.Dict<string>>)
      requires saved.Stored? ==> Dict.Valid(saved.value)
      ensures Valid() && this.page == page && this.saved == saved
    {
      this.page := page;
      this.saved := saved;
    }

    /**
     * `saveHeroText(key, value)`: the stored dictionary with `key` set to
     * `value` and every other key, the colour key included, unchanged.
     */
    method SaveHeroText(key: string, value: string) returns (r: Saving)
      requires Valid()
      modifies this`saved
      ensures Valid()
      ensures r == Threw <==> old(saved).Unparseable?
      ensures r == Threw ==> saved == old(saved)
      ensures r == Saved ==> (saved.Stored?
        && Dict.Get(saved.value, key) == Some(value)
        && forall k :: k != key ==> Dict.Get(saved.value, k) == Dict.Get(ReadHero(old(saved)).value, k))
    {
      var content := ReadHero(saved);
      if content.None? {
        return Threw;
      }
      saved := Stored(Dict.Put(content.value, key, value));
      r := Saved;
    }

    /** `saveHeroTextColor(key, colorVar)`: only `<key>_color` changes. */
    method SaveHeroTextColor(key: string, colorVar: string) returns (r: Saving)
      requires Valid()
      modifies this`saved
      ensures Valid()
      ensures r == Threw <==> old(saved).Unparseable?
      ensures r == Threw ==> saved == old(saved)
      ensures r == Saved ==> (saved.Stored?
        && Dict.Get(saved.value, ColorKey(key)) == Some(colorVar)
        && forall k :: k != ColorKey(key) ==> Dict.Get(saved.value, k) == Dict.Get(ReadHero(old(saved)).value, k))
    {
      var content := ReadHero(saved);
      if content.None? {
        return Threw;
      }
      saved := Stored(Dict.Put(content.value, ColorKey(key), colorVar));
      r := Saved;
    }

    /**
     * The double-click handler of hero text i: a prompt answer (`None` when
     * cancelled) replaces the text and is saved; then, when the user wants
     * another colour, a valid palette number sets it and is saved. A save
     * that throws ends the handler.
     */
    method EditHeroText(i: nat, newValue: Option<string>, changeColor: bool, choice: Option<string>)
      requires Valid() && i < |page|
      modifies this`page, this`saved
      ensures Valid()
      ensures old(saved).Unparseable? ==> saved == old(saved)
      ensures var t := if newValue.Some? then old(page)[i].(text := newValue.value) else old(page)[i];
        var c := if changeColor && !(old(saved).Unparseable? && newValue.Some?) then ChosenColor(choice) else None;
        page == old(page)[i := if c.Some? then t.(color := c.value) else t]
      ensures !old(saved).Unparseable? && newValue.Some? ==>
        saved.Stored? && Dict.Get(saved.value, old(page)[i].key) == newValue
      ensures !old(saved).Unparseable? && changeColor && ChosenColor(choice).Some? ==>
        saved.Stored? && Dict.Get(saved.value, ColorKey(old(page)[i].key)) == ChosenColor(choice)
    {
      var key := page[i].key;
      ColorKeyDiffers(key);
      var c := if changeColor then ChosenColor(choice) else None;
      var t := if newValue.Some? then page[i].(text := newValue.value) else page[i];
      if newValue.Some? {
        page := page[i := t];
        var r := SaveHeroText(key, newValue.value);
        if r == Threw {
          return;
        }
      }
      assert page == old(page)[i := t] && page[i].key == key;
      SetHeroColor(i, c);
    }

    /** The colour part of the handler: a chosen colour variable is shown and saved under `<key>_color`. */
    method SetHeroColor(i: nat, c: Option<string>)
      requires Valid() && i < |page|
      modifies this`page, this`saved
      ensures Valid()
      ensures c.None? ==> page == old(page) && saved == old(saved)
      ensures c.Some? ==> page == old(page)[i := old(page)[i].(color := c.value)]
      ensures c.Some? && old(saved).Unparseable? ==> saved == old(saved)
      ensures c.Some? && !old(saved).Unparseable? ==> (saved.Stored?
        && Dict.Get(saved.value, ColorKey(old(page)[i].key)) == c
        && forall k :: k != ColorKey(old(page)[i].key) ==> Dict.Get(saved.value, k) == Dict.Get(ReadHero(old(saved)).value, k))
    {
      if c.Some? {
        var key := page[i].key;
        page := page[i := page[i].(color := c.value)];
        var r := SaveHeroTextColor(key, c.value);
      }
    }

    /**
     * `loadHeroText`: for each stored key, in order, that does not end in
     * `_color`, the first element with that key takes the stored text, and
     * the stored colour when `<key>_color` holds a non-empty one. The page
     * ends as `ApplyHero` says.
     */
    method LoadHeroText() returns (r: Saving)
      requires Valid()
      modifies this`page
      ensures r == Threw <==> saved.Unparseable?
      ensures r == Threw ==> page == old(page)
      ensures r == Saved ==> page == ApplyHero(ReadHero(saved).value.values, old(page))
    {
      var content := ReadHero(saved);
      if content.None? {
        return Threw;
      }
      var data := content.value.values;
      var keys := content.value.order;
      ghost var els := page;
      var i := 0;
      while i < |keys|
        invariant 0 <= i <= |keys| && |page| == |els|
        invariant forall j :: 0 <= j < |els| ==> page[j].key == els[j].key
        invariant forall j :: 0 <= j < |els| ==>
          page[j] == (if els[j].key in keys[..i] then Restored(data, els, j) else els[j])
      {
        var k := keys[i];
        assert Distinct(keys) && forall j :: 0 <= j < i ==> keys[j] != k;
        assert k !in keys[..i];
        assert keys[..i + 1] == keys[..i] + [k];
        if !EndsWith(k, "_color") {
          var f := FindIndex(page, (e: HeroText) => e.key == k);
          if f.Some? {
            var ck := ColorKey(k);
            var e := page[f.value].(text := data[k]);
            if ck in data && data[ck] != "" {
              e := e.(color := data[ck]);
            }
            assert FirstWithKey(els, f.value);
            page := page[f.value := e];
          }
        }
        i := i + 1;
      }
      assert keys[..i] == keys;
      forall j | 0 <= j < |els| ensures page[j] == Restored(data, els, j) {
        if els[j].key !in keys {
          assert els[j].key !in data;
        }
      }
      r := Saved;
    }
  }

  /**
   * Saving a text and loading the dictionary back shows that text on the
   * first element with that key, with the colour the dictionary already
   * held for it.
   */
  lemma SaveThenLoad(o: Dict.Dict<string>, key: string, value: string, els: seq<HeroText>, i: nat)
    requires Dict.Valid(o) && i < |els| && els[i].key == key && FirstWithKey(els, i) && !EndsWith(key, "_color")
    ensures var ck := ColorKey(key);
      ApplyHero(Dict.Put(o, key, value).values, els)[i]
        == els[i].(text := value, color := if ck in o.values && o.values[ck] != "" then o.values[ck] else els[i].color)
  {
    ColorKeyDiffers(key);
  }
}
