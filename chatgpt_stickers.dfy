/**
 * The sticker layer of the chatgpt variant: new stickers at (200, 200), a
 * file picker that turns into an image or a video, dragging by the page
 * position, re-parenting to the block with the largest overlap (no
 * threshold, and no overlap keeps the current parent), and the link toolbar
 * whose `applyLink` goes through `String.prototype.replace`.
 */
module ChatgptStickers {
  import opened Wrappers
  import opened Geometry
  import opened JsText
  import GrokStickers

  // ---------------------------------------------------------------------
  // `String.prototype.replace` with a string pattern and a string template
  // (sections 22.1.3.19 and 22.1.3.19.1 of ECMA-262).
  // ---------------------------------------------------------------------

  /** `StringIndexOf(s, p, from)`: the first index at or after `from` where `p` occurs. */
  function IndexFrom(s: string, p: string, from: nat): (r: Option<nat>)
    ensures r.Some? ==> from <= r.value && InfixAt(p, s, r.value)
    ensures r.Some? ==> forall j :: from <= j < r.value ==> !InfixAt(p, s, j)
    ensures r.None? ==> forall j :: from <= j ==> !InfixAt(p, s, j)
    decreases |s| - from
  {
    if from + |p| > |s| then None
    else if s[from..from + |p|] == p then Some(from)
    else IndexFrom(s, p, from + 1)
  }

  /** The position `replace` matches at: the first occurrence of `p` in `s`, 0 for the empty pattern. */
  function IndexOf(s: string, p: string): (r: Option<nat>)
    ensures r.Some? ==> InfixAt(p, s, r.value) && forall j :: 0 <= j < r.value ==> !InfixAt(p, s, j)
    ensures r.None? <==> forall j :: !InfixAt(p, s, j)
    ensures p == [] ==> r == Some(0)
  {
    if p == [] then assert InfixAt(p, s, 0); Some(0) else IndexFrom(s, p, 0)
  }

  /**
   * `GetSubstitution` with no capture groups: `$$` is a dollar sign, `$&`
   * the matched text, `` $` `` the text before the match and `$'` the text
   * after it; every other character, a `$` included, stands for itself.
   */
  function Substitute(t: string, matched: string, before: string, after: string): string
    decreases |t|
  {
    if t == [] then []
    else if t[0] == '$' && |t| >= 2 && t[1] == '$' then "$" + Substitute(t[2..], matched, before, after)
    else if t[0] == '$' && |t| >= 2 && t[1] == '&' then matched + Substitute(t[2..], matched, before, after)
    else if t[0] == '$' && |t| >= 2 && t[1] == '`' then before + Substitute(t[2..], matched, before, after)
    else if t[0] == '$' && |t| >= 2 && t[1] == '\'' then after + Substitute(t[2..], matched, before, after)
    else [t[0]] + Substitute(t[1..], matched, before, after)
  }

  /** A template without a dollar sign is inserted as it is. */
  lemma {:induction false} SubstituteLiteral(t: string, matched: string, before: string, after: string)
    requires '$' !in t
    ensures Substitute(t, matched, before, after) == t
    decreases |t|
  {
    if t != [] {
      assert t[0] != '$';
      assert '$' !in t[1..] by {
        forall c | c in t[1..] ensures c != '$' {
          assert c in t;
        }
      }
      SubstituteLiteral(t[1..], matched, before, after);
      assert t == [t[0]] + t[1..];
    }
  }

  /** The Markdown link `applyLink` puts in place of the selection. */
  function Link(selected: string, url: string): (link: string)
    ensures |link| == |selected| + |url| + 4
    ensures link[0] == '[' && link[|link| - 1] == ')'
    ensures link[1..|selected| + 1] == selected && link[|selected| + 3..|link| - 1] == url
  {
    "[" + selected + "](" + url + ")"
  }

  /**
   * `text.replace(selected, "[selected](url)")`: the first occurrence of the
   * selection is replaced by the template after `GetSubstitution`; a text
   * without the selection is returned unchanged. Around the match nothing
   * changes.
   */
  function ApplyLink(text: string, selected: string, url: string): (r: string)
    ensures IndexOf(text, selected).None? ==> r == text
    ensures IndexOf(text, selected).Some? ==>
      var i := IndexOf(text, selected).value;
      |r| >= i && r[..i] == text[..i] && EndsWith(r, text[i + |selected|..])
  {
    match IndexOf(text, selected)
    case None => text
    case Some(i) =>
      var before, after := text[..i], text[i + |selected|..];
      var r := before + Substitute(Link(selected, url), selected, before, after) + after;
      assert r[|r| - |after|..] == after;
      r
  }

  /**
   * The replacement the toolbar means: the first occurrence of the selection
   * becomes the link, taken literally.
   */
  function ApplyLinkAsIntended(text: string, selected: string, url: string): (r: string)
    ensures IndexOf(text, selected).None? ==> r == text
    ensures IndexOf(text, selected).Some? ==>
      var i := IndexOf(text, selected).value;
      var link := Link(selected, url);
      |r| == |text| - |selected| + |link| && r[..i] == text[..i]
      && InfixAt(link, r, i) && r[i + |link|..] == text[i + |selected|..]
  {
    match IndexOf(text, selected)
    case None => text
    case Some(i) =>
      var link := Link(selected, url);
      var r := text[..i] + link + text[i + |selected|..];
      assert r[i..i + |link|] == link;
      assert r[i + |link|..] == text[i + |selected|..];
      r
  }

  /** Taking the link out again and putting the selection back gives the original text. */
  lemma UnlinkAsIntended(text: string, selected: string, url: string)
    requires IndexOf(text, selected).Some?
    ensures var i := IndexOf(text, selected).value;
      var r := ApplyLinkAsIntended(text, selected, url);
      r[..i] + selected + r[i + |Link(selected, url)|..] == text
  {
    var i := IndexOf(text, selected).value;
    assert text == text[..i] + text[i..i + |selected|] + text[i + |selected|..];
  }

  /** With no dollar sign in the selection or the address, the replacement is the intended one. */
  lemma ApplyLinkAgrees(text: string, selected: string, url: string)
    requires '$' !in selected && '$' !in url
    ensures ApplyLink(text, selected, url) == ApplyLinkAsIntended(text, selected, url)
  {
    if IndexOf(text, selected).Some? {
      var i := IndexOf(text, selected).value;
      var before, after := text[..i], text[i + |selected|..];
      var link := Link(selected, url);
      assert ApplyLink(text, selected, url) == before + Substitute(link, selected, before, after) + after;
      assert ApplyLinkAsIntended(text, selected, url) == before + link + after;
      LinkLiteral(selected, url);
      SubstituteLiteral(link, selected, before, after);
    }
  }

  lemma LinkLiteral(selected: string, url: string)
    requires '$' !in selected && '$' !in url
    ensures '$' !in Link(selected, url)
  {
    var link := Link(selected, url);
    assert link == "[" + selected + "](" + url + ")";
    forall i | 0 <= i < |link| ensures link[i] != '$' {
      if 1 <= i < |selected| + 1 {
        assert link[i] == link[1..|selected| + 1][i - 1];
      } else if |selected| + 3 <= i < |link| - 1 {
        assert link[i] == link[|selected| + 3..|link| - 1][i - |selected| - 3];
      }
    }
  }

  /**
   * An address containing `$&` gets the selection spliced into it: linking
   * `x` in the text `x` to `a$&b` writes `[x](axb)` instead of `[x](a$&b)`.
   */
  lemma ApplyLinkDollarPattern()
    ensures ApplyLink("x", "x", "a$&b") == "[x](axb)"
    ensures ApplyLinkAsIntended("x", "x", "a$&b") == "[x](a$&b)"
  {
    assert IndexOf("x", "x") == Some(0) by {
      assert InfixAt("x", "x", 0);
    }
    assert "x"[..0] == "" && "x"[1..] == "";
    assert Link("x", "a$&b") == "[x](a$&b)";
    SubstituteDollarPattern();
  }

  lemma SubstituteDollarPattern()
    ensures Substitute("[x](a$&b)", "x", "", "") == "[x](axb)"
  {
    var tail := "$&b)";
    assert "[x](a$&b)" == "[x](a" + tail;
    SubstitutePrefix("[x](a", tail, "x", "", "");
    assert tail[0] == '$' && tail[1] == '&' && tail[2..] == "b)";
    SubstituteLiteral("b)", "x", "", "");
    assert Substitute(tail, "x", "", "") == "xb)";
    assert "[x](a" + "xb)" == "[x](axb)";
  }

  /** A stretch without a dollar sign in front of the template is copied as it is. */
  lemma {:induction false} SubstitutePrefix(u: string, t: string, matched: string, before: string, after: string)
    requires '$' !in u
    ensures Substitute(u + t, matched, before, after) == u + Substitute(t, matched, before, after)
    decreases |u|
  {
    if u != [] {
      assert (u + t)[0] == u[0] && u[0] in u;
      assert (u + t)[1..] == u[1..] + t;
      assert '$' !in u[1..] by {
        forall c | c in u[1..] ensures c != '$' {
          assert c in u;
        }
      }
      SubstitutePrefix(u[1..], t, matched, before, after);
      var rest := Substitute(t, matched, before, after);
      assert u[0] != '$';
      assert Substitute(u + t, matched, before, after) == [u[0]] + (u[1..] + rest);
      assert u == [u[0]] + u[1..];
      assert [u[0]] + (u[1..] + rest) == ([u[0]] + u[1..]) + rest;
    } else {
      assert u + t == t;
    }
  }

  // ---------------------------------------------------------------------
  // Stickers.
  // ---------------------------------------------------------------------

  datatype Media = Picture | Movie

  /** What the sticker element holds. */
  datatype Body =
    | Note(value: string)          // a textarea and its value
    | Picker(media: Media)         // an `st-input` file input
    | Blank                        // an unknown type: nothing
    | Shown(media: Media, url: string)  // the `<img>` or `<video>` of a loaded file

  /** A sticker: its type, its contents, its `left`/`top` in pixels and the block it sits in (`None`: the content area). */
  datatype Sticker = Sticker(kind: string, body: Body, left: int, top: int, parent: Option<string>)

  /** The mousedown that installed `document.onmousemove`: pointer start and the sticker's page position. */
  datatype Drag = Drag(index: nat, startX: int, startY: int, origX: int, origY: int)

  /** `createSticker(type)`: at (200, 200) in the content area, with a textarea, a file input or nothing. */
  function NewSticker(kind: string): (s: Sticker)
    ensures s.kind == kind && s.left == 200 && s.top == 200 && s.parent.None?
    ensures s.body == Note("") <==> kind == "text"
    ensures s.body == Picker(Picture) <==> kind == "image"
    ensures s.body == Picker(Movie) <==> kind == "video"
    ensures s.body == Blank <==> kind != "text" && kind != "image" && kind != "video"
  {
    var body :=
      if kind == "text" then Note("")
      else if kind == "image" then Picker(Picture)
      else if kind == "video" then Picker(Movie)
      else Blank;
    Sticker(kind, body, 200, 200, None)
  }

  /**
   * The file input's change handler: a chosen file (its object URL) replaces
   * the input with an image or a video; no file changes nothing, and a
   * sticker without the input has nothing to change.
   */
  function LoadedFile(s: Sticker, file: Option<string>): (r: Sticker)
    ensures r.kind == s.kind && r.left == s.left && r.top == s.top && r.parent == s.parent
    ensures s.body.Picker? && file.Some? ==> r.body == Shown(s.body.media, file.value)
    ensures !(s.body.Picker? && file.Some?) ==> r == s
  {
    if s.body.Picker? && file.Some? then s.(body := Shown(s.body.media, file.value)) else s
  }

  /** The input is gone once a file is shown, so a later file does not replace it. */
  lemma LoadedFileOnce(s: Sticker, f: string, g: Option<string>)
    ensures LoadedFile(LoadedFile(s, Some(f)), g) == LoadedFile(s, Some(f))
  {
  }

  /** The mousemove handler: the page position at mousedown plus the pointer's travel. */
  function Moved(s: Sticker, d: Drag, clientX: int, clientY: int): (r: Sticker)
    ensures r.left - d.origX == clientX - d.startX && r.top - d.origY == clientY - d.startY
    ensures r.kind == s.kind && r.body == s.body && r.parent == s.parent
  {
    s.(left := d.origX + (clientX - d.startX), top := d.origY + (clientY - d.startY))
  }

  /** Only the last pointer position counts: the moves do not accumulate. */
  lemma MovedLastWins(s: Sticker, d: Drag, x1: int, y1: int, x2: int, y2: int)
    ensures Moved(Moved(s, d, x1, y1), d, x2, y2) == Moved(s, d, x2, y2)
  {
  }

  /**
   * `updateStickerParent`: the first block with the strictly largest
   * positive overlap becomes the parent, whatever share of the sticker it
   * covers; when no block overlaps, the parent stays what it was.
   */
  function Reparented(current: Option<string>, box: Rect, blocks: seq<Placed>): (r: Option<string>)
    ensures (forall j :: 0 <= j < |blocks| ==> Overlap(box, blocks[j].rect) == 0) ==> r == current
    ensures (exists j :: 0 <= j < |blocks| && Overlap(box, blocks[j].rect) > 0) ==>
      exists k :: (0 <= k < |blocks| && r == Some(blocks[k].id)
        && (forall j :: 0 <= j < |blocks| ==> Overlap(box, blocks[j].rect) <= Overlap(box, blocks[k].rect))
        && (forall j :: 0 <= j < k ==> Overlap(box, blocks[j].rect) < Overlap(box, blocks[k].rect)))
  {
    var areas := Areas(box, blocks);
    match FirstMax(areas, 0)
    case None => current
    case Some(k) => Some(blocks[k].id)
  }

  /**
   * Without the half-area threshold of the grok variant, every block that
   * variant attaches a sticker to is the block chosen here too; the
   * difference is only the stickers that variant leaves unattached.
   */
  lemma ThresholdOnlyNarrows(current: Option<string>, box: Rect, w: nat, h: nat, blocks: seq<Placed>)
    ensures GrokStickers.Attached(box, w, h, blocks).Some? ==>
      Reparented(current, box, blocks) == GrokStickers.Attached(box, w, h, blocks)
  {
  }

  /** `enableLinkFeature`: the toolbar shows on a text sticker when the selection has a non-blank character. */
  function LinkToolbarShown(s: Sticker, selection: string): (shown: bool)
    ensures shown <==> s.body.Note? && exists i :: 0 <= i < |selection| && !IsSpace(selection[i])
  {
    s.body.Note? && Trim(selection) != ""
  }

  /** The scan of `updateStickerParent`: `bestArea` from 0 and the block it came from. Nothing changes. */
  method BestBlock(box: Rect, blocks: seq<Placed>) returns (best: Option<nat>)
    ensures best == FirstMax(Areas(box, blocks), 0)
  {
    var bestArea := 0;
    best := None;
    ghost var areas := Areas(box, blocks);
    var i := 0;
    while i < |blocks|
      invariant 0 <= i <= |blocks|
      invariant best == FirstMax(areas[..i], 0)
      invariant bestArea == BestArea(areas[..i], 0)
    {
      ScanStep(areas, 0, i, best, bestArea);
      var area := Overlap(box, blocks[i].rect);
      assert area == areas[i];
      if area > bestArea {
        bestArea := area;
        best := Some(i);
      }
      i := i + 1;
    }
    assert areas[..i] == areas;
  }

  /** The `stickers` array of the module and the drag that owns `document.onmousemove`. */
  class StickerLayer {
    var stickers: seq<Sticker>
    var drag: Option<Drag>

    ghost predicate Valid()
      reads this
    {
      drag.Some? ==> drag.value.index < |stickers|
    }

    constructor ()
      ensures Valid() && stickers == [] && drag.None?
    {
      stickers, drag := [], None;
    }

    /** `createSticker(type)`: the new sticker goes at the end; its index is returned. */
    method CreateSticker(kind: string) returns (k: nat)
      requires Valid()
      modifies this`stickers
      ensures Valid()
      ensures k == |old(stickers)| && stickers == old(stickers) + [NewSticker(kind)]
    {
      stickers := stickers + [NewSticker(kind)];
      k := |stickers| - 1;
    }

    /** The input's change event with the chosen file's object URL, if a file was chosen. */
    method LoadFile(k: nat, file: Option<string>)
      requires k < |stickers|
      modifies this`stickers
      ensures stickers == old(stickers)[k := LoadedFile(old(stickers)[k], file)]
    {
      stickers := stickers[k := LoadedFile(stickers[k], file)];
    }

    /** Typing in a text sticker's textarea. */
    method EditText(k: nat, value: string)
      requires k < |stickers| && stickers[k].body.Note?
      modifies this`stickers
      ensures stickers == old(stickers)[k := old(stickers)[k].(body := Note(value))]
    {
      stickers := stickers[k := stickers[k].(body := Note(value))];
    }

    /**
     * A mousedown on sticker `k`. On its textarea or file input (`onField`)
     * nothing happens; elsewhere the pointer and the sticker's page
     * position (`rect` plus the scroll) are recorded, replacing any drag
     * before it.
     */
    method DragMouseDown(k: nat, onField: bool, clientX: int, clientY: int, rect: Rect, scrollX: int, scrollY: int)
      requires Valid() && k < |stickers|
      requires onField ==> stickers[k].body.Note? || stickers[k].body.Picker?
      modifies this`drag
      ensures Valid()
      ensures onField ==> drag == old(drag)
      ensures !onField ==> drag == Some(Drag(k, clientX, clientY, rect.left + scrollX, rect.top + scrollY))
    {
      if !onField {
        drag := Some(Drag(k, clientX, clientY, rect.left + scrollX, rect.top + scrollY));
      }
    }

    /** `document.onmousemove` while a drag is on. */
    method DragMouseMove(clientX: int, clientY: int)
      requires Valid()
      modifies this`stickers
      ensures Valid()
      ensures drag.None? ==> stickers == old(stickers)
      ensures drag.Some? ==>
        stickers == old(stickers)[drag.value.index := Moved(old(stickers)[drag.value.index], drag.value, clientX, clientY)]
    {
      if drag.Some? {
        var d := drag.value;
        stickers := stickers[d.index := Moved(stickers[d.index], d, clientX, clientY)];
      }
    }

    /**
     * `updateStickerParent(st)` for sticker `k`, with its rectangle and the
     * blocks' rectangles in page order.
     */
    method UpdateStickerParent(k: nat, box: Rect, blocks: seq<Placed>)
      requires k < |stickers|
      modifies this`stickers
      ensures stickers == old(stickers)[k := old(stickers)[k].(parent := Reparented(old(stickers)[k].parent, box, blocks))]
    {
      var best := BestBlock(box, blocks);
      if best.Some? {
        stickers := stickers[k := stickers[k].(parent := Some(blocks[best.value].id))];
      }
    }

    /** `document.onmouseup`: the handlers are cleared, then the dragged sticker is re-parented. */
    method DragMouseUp(box: Rect, blocks: seq<Placed>)
      requires Valid()
      modifies this`stickers, this`drag
      ensures Valid() && drag.None?
      ensures old(drag).None? ==> stickers == old(stickers)
      ensures old(drag).Some? ==>
        var k := old(drag).value.index;
        stickers == old(stickers)[k := old(stickers)[k].(parent := Reparented(old(stickers)[k].parent, box, blocks))]
    {
      if drag.Some? {
        var k := drag.value.index;
        drag := None;
        UpdateStickerParent(k, box, blocks);
      }
    }

    /**
     * The toolbar's button: the typed address is trimmed and, when it is not
     * empty, `applyLink` rewrites the textarea with the selection's text at
     * the time of the click. The toolbar exists only on text stickers.
     */
    method ConfirmLink(k: nat, selected: string, typed: string)
      requires k < |stickers| && stickers[k].body.Note?
      modifies this`stickers
      ensures Trim(typed) == "" ==> stickers == old(stickers)
      ensures Trim(typed) != "" ==> stickers == old(stickers)[k :=
        old(stickers)[k].(body := Note(ApplyLink(old(stickers)[k].body.value, selected, Trim(typed))))]
    {
      var url := Trim(typed);
      if url != "" {
        stickers := stickers[k := stickers[k].(body := Note(ApplyLink(stickers[k].body.value, selected, url)))];
      }
    }

    /** The toolbar's button with the link inserted literally. */
    method ConfirmLinkAsIntended(k: nat, selected: string, typed: string)
      requires k < |stickers| && stickers[k].body.Note?
      modifies this`stickers
      ensures Trim(typed) == "" ==> stickers == old(stickers)
      ensures Trim(typed) != "" ==> stickers == old(stickers)[k :=
        old(stickers)[k].(body := Note(ApplyLinkAsIntended(old(stickers)[k].body.value, selected, Trim(typed))))]
    {
      var url := Trim(typed);
      if url != "" {
        stickers := stickers[k := stickers[k].(body := Note(ApplyLinkAsIntended(stickers[k].body.value, selected, url)))];
      }
    }
  }
}
