/**
 * grokooooo/stickers.js: the `stickers` array of sticker elements, created
 * by `addSticker` at the middle of the viewport, dragged and resized by
 * handlers, attached to the block they cover more than half of, and saved
 * and restored through `getStickersData` / `setStickersData`.
 *
 * Element rectangles, `offsetWidth`/`offsetHeight`, `offsetLeft`/`offsetTop`,
 * the computed size a resize starts from and the window size are
 * parameters; blocks are given in page order.
 */
module GrokStickers {
  import opened Wrappers
  import opened Geometry

  /** The child `addSticker` gave the element; `Plain` for a type it does not know. */
  datatype Kind = Text | Image | Video | Plain

  /** An inline style length: not set (`""`), or `<n>px`. */
  datatype Length = Unset | Px(px: real)

  /**
   * A sticker element: its kind, the text of its paragraph (text stickers),
   * the `src` of its media child (image and video stickers), its inline
   * position and size, and the `id` of the block it was appended to
   * (`None`: the body).
   */
  datatype Sticker = Sticker(
    kind: Kind, text: string, src: string,
    left: Length, top: Length, width: Length, height: Length,
    parent: Option<string>)

  /** One entry of `getStickersData`: the type name, `innerHTML`, and the four inline lengths. */
  datatype StickerData = StickerData(kind: string, content: string, left: Length, top: Length, width: Length, height: Length)

  /** The window measures `addSticker` reads. */
  datatype Viewport = Viewport(innerWidth: real, innerHeight: real, pageYOffset: real)

  /** What the layout reports for a sticker when it is attached: its rectangle and its offset size. */
  datatype Layout = Layout(box: Rect, offsetWidth: nat, offsetHeight: nat)

  /** A drag in progress: the sticker and the pointer position of the last step (`pos3`, `pos4`). */
  datatype Drag = Drag(index: nat, lastX: real, lastY: real)

  /** A resize in progress: the sticker, the pointer and the computed size (read by `parseInt`) when it began. */
  datatype Resizing = Resizing(index: nat, startX: real, startY: real, startWidth: int, startHeight: int)

  /** The paragraph text every new text sticker gets. */
  const DefaultText: string := "编辑文本"

  function KindOf(kind: string): Kind {
    if kind == "text" then Text
    else if kind == "image" then Image
    else if kind == "video" then Video
    else Plain
  }

  /**
   * The element `addSticker(type, content)` builds: 200 px left of the
   * middle of the window and 80 px above it, no size, in the body. A text
   * sticker gets the default paragraph whatever `content` is; an image or a
   * video takes `content` as its `src`.
   */
  function NewSticker(kind: string, content: string, view: Viewport): Sticker {
    var k := KindOf(kind);
    Sticker(k,
      if k == Text then DefaultText else "",
      if k == Image || k == Video then content else "",
      Px(view.innerWidth / 2.0 - 100.0), Px(view.pageYOffset + view.innerHeight / 2.0 - 80.0),
      Unset, Unset, None)
  }

  /** What `addSticker` puts in `content` lands in the sticker as it was given, except for text. */
  lemma NewStickerContent(kind: string, content: string, other: string, view: Viewport)
    ensures KindOf(kind) == Text ==> NewSticker(kind, content, view) == NewSticker(kind, other, view)
    ensures KindOf(kind) == Image || KindOf(kind) == Video ==> NewSticker(kind, content, view).src == content
    ensures NewSticker(kind, content, view).parent.None?
  {
  }

  /**
   * The type name `getStickersData` infers: `text` for the `sticker-text`
   * class, `image` when there is an `img`, and `video` for everything else,
   * including a sticker with no media at all.
   */
  function TypeName(k: Kind): (name: string)
    ensures KindOf(name) == (if k == Plain then Video else k)
  {
    match k
    case Text => "text"
    case Image => "image"
    case Video => "video"
    case Plain => "video"
  }

  /** The markup of the resize handle `makeResizable` appends to every sticker. */
  const ResizerHtml: string :=
    "<div class=\"resizer\" style=\"width: 10px; height: 10px; background: gray; position: absolute; right: 0px; bottom: 0px; cursor: se-resize;\"></div>"

  /** The markup of the sticker's first child, as `innerHTML` serialises it. */
  function ChildHtml(s: Sticker): string {
    match s.kind
    case Text => "<p contenteditable=\"true\">" + s.text + "</p>"
    case Image => "<img src=\"" + s.src + "\">"
    case Video => "<video src=\"" + s.src + "\" controls=\"\"></video>"
    case Plain => ""
  }

  /** The element a text sticker's content survives in, its image or video source, or nothing. */
  function SavedContent(s: Sticker): string {
    match s.kind
    case Text => s.text
    case Image => s.src
    case Video => s.src
    case Plain => ""
  }

  /** `s.innerHTML`: the child, then the resize handle. */
  function InnerHtml(s: Sticker): (html: string)
    ensures |html| > |SavedContent(s)|
  {
    ChildHtml(s) + ResizerHtml
  }

  /** One entry of `getStickersData`. */
  function DataOf(s: Sticker): StickerData {
    StickerData(TypeName(s.kind), InnerHtml(s), s.left, s.top, s.width, s.height)
  }

  /** `getStickersData()`: one entry per sticker, in array order. */
  function StickersData(ss: seq<Sticker>): (r: seq<StickerData>)
    ensures |r| == |ss|
    ensures forall i :: 0 <= i < |ss| ==> r[i] == DataOf(ss[i])
  {
    seq(|ss|, i requires 0 <= i < |ss| => DataOf(ss[i]))
  }

  /**
   * The block `attachToBlock` appends the sticker to: the first block with
   * the largest overlap, when that overlap is more than half of
   * `offsetWidth * offsetHeight` (`2 * overlap > w * h` in whole numbers);
   * the body (`None`) otherwise.
   */
  function Attached(box: Rect, offsetWidth: nat, offsetHeight: nat, blocks: seq<Placed>): Option<string> {
    var areas := Areas(box, blocks);
    var best := FirstMax(areas, 0);
    if best.Some? && 2 * areas[best.value] > offsetWidth * offsetHeight then Some(blocks[best.value].id)
    else None
  }

  /**
   * The parent `attachToBlock` picks: there is one exactly when some block
   * overlaps more than half of the offset area, and then it is the first
   * block with the largest overlap.
   */
  lemma AttachedChoice(box: Rect, offsetWidth: nat, offsetHeight: nat, blocks: seq<Placed>)
    ensures var r := Attached(box, offsetWidth, offsetHeight, blocks);
      (r.Some? <==> exists j :: 0 <= j < |blocks| && 2 * Overlap(box, blocks[j].rect) > offsetWidth * offsetHeight)
      && (r.Some? ==>
        exists k :: (0 <= k < |blocks| && r.value == blocks[k].id
          && (forall j :: 0 <= j < |blocks| ==> Overlap(box, blocks[j].rect) <= Overlap(box, blocks[k].rect))
          && (forall j :: 0 <= j < k ==> Overlap(box, blocks[j].rect) < Overlap(box, blocks[k].rect))))
  {
    var areas := Areas(box, blocks);
    var best := FirstMax(areas, 0);
    var half := offsetWidth * offsetHeight;
    assert half >= 0;
    if j :| 0 <= j < |blocks| && 2 * Overlap(box, blocks[j].rect) > half {
      assert areas[j] > 0;
      assert best.Some? && areas[j] <= areas[best.value];
    }
    if best.Some? {
      var k := best.value;
      assert areas[k] == Overlap(box, blocks[k].rect);
    }
  }

  /**
   * A block that holds more than half of a sticker whose rectangle is its
   * offset size, and more of it than any other block does, is its parent
   * wherever it stands in the page order.
   */
  lemma MajorityBlockWins(box: Rect, blocks: seq<Placed>, j: nat)
    requires WellFormed(box) && j < |blocks|
    requires 2 * Overlap(box, blocks[j].rect) > Area(box)
    requires forall i :: 0 <= i < |blocks| && i != j ==> Overlap(box, blocks[i].rect) < Overlap(box, blocks[j].rect)
    ensures Attached(box, Width(box), Height(box), blocks) == Some(blocks[j].id)
  {
    var r := Attached(box, Width(box), Height(box), blocks);
    assert r.Some?;
  }

  /** A sticker as `addSticker` and the handlers leave it: only its own kind of content is set. */
  predicate Consistent(s: Sticker) {
    (s.kind != Text ==> s.text == "") && (s.kind != Image && s.kind != Video ==> s.src == "")
  }

  /** `setStickersData` for one entry: `addSticker(type, content)` attached where it was made, then the saved lengths. */
  function Loaded(d: StickerData, view: Viewport, lay: Layout, blocks: seq<Placed>): Sticker {
    NewSticker(d.kind, d.content, view).(
      parent := Attached(lay.box, lay.offsetWidth, lay.offsetHeight, blocks),
      left := d.left, top := d.top, width := d.width, height := d.height)
  }

  /**
   * Saving and reloading a sticker keeps its kind (a `Plain` one comes back
   * as a video), its position and its size, but not its content: an image
   * or a video gets its old `innerHTML` as its new `src`, which is never
   * the old `src`, and a text sticker gets the default paragraph again.
   */
  lemma ReloadLosesContent(s: Sticker, view: Viewport, lay: Layout, blocks: seq<Placed>)
    ensures var r := Loaded(DataOf(s), view, lay, blocks);
      r.kind == (if s.kind == Plain then Video else s.kind)
      && r.left == s.left && r.top == s.top && r.width == s.width && r.height == s.height
      && (s.kind == Image || s.kind == Video ==> r.src == InnerHtml(s) && r.src != s.src)
      && (s.kind == Text ==> r.text == DefaultText)
  {
    var r := Loaded(DataOf(s), view, lay, blocks);
    if s.kind == Image || s.kind == Video {
      assert |r.src| > |s.src|;
    }
  }

  /** `getStickersData` as intended: the paragraph text or the media `src` as content. */
  function DataOfAsIntended(s: Sticker): StickerData {
    StickerData(TypeName(s.kind), SavedContent(s), s.left, s.top, s.width, s.height)
  }

  /** `getStickersData()` as intended. */
  function StickersDataAsIntended(ss: seq<Sticker>): (r: seq<StickerData>)
    ensures |r| == |ss|
    ensures forall i :: 0 <= i < |ss| ==> r[i] == DataOfAsIntended(ss[i])
  {
    seq(|ss|, i requires 0 <= i < |ss| => DataOfAsIntended(ss[i]))
  }

  /** `addSticker` as intended: a text sticker shows `content`, falling back to the default paragraph. */
  function NewStickerAsIntended(kind: string, content: string, view: Viewport): Sticker {
    var s := NewSticker(kind, content, view);
    if s.kind == Text && content != "" then s.(text := content) else s
  }

  function LoadedAsIntended(d: StickerData, view: Viewport, lay: Layout, blocks: seq<Placed>): Sticker {
    NewStickerAsIntended(d.kind, d.content, view).(
      parent := Attached(lay.box, lay.offsetWidth, lay.offsetHeight, blocks),
      left := d.left, top := d.top, width := d.width, height := d.height)
  }

  /**
   * With the content saved as intended, reloading gives back the same
   * sticker (kind, text, source, position, size); only the parent is
   * worked out afresh from where the new element lands.
   */
  lemma ReloadRoundTrip(s: Sticker, view: Viewport, lay: Layout, blocks: seq<Placed>)
    requires Consistent(s) && s.kind != Plain && (s.kind == Text ==> s.text != "")
    ensures var r := LoadedAsIntended(DataOfAsIntended(s), view, lay, blocks);
      r == s.(parent := Attached(lay.box, lay.offsetWidth, lay.offsetHeight, blocks))
  {
  }

  /** A fresh sticker is consistent, whatever it was made from. */
  lemma NewStickerConsistent(kind: string, content: string, view: Viewport)
    ensures Consistent(NewSticker(kind, content, view)) && Consistent(NewStickerAsIntended(kind, content, view))
  {
  }

  /** The sticker entry `d` comes back as, by the loader as written or as intended. */
  function LoadedBy(intended: bool, d: StickerData, view: Viewport, lay: Layout, blocks: seq<Placed>): Sticker {
    if intended then LoadedAsIntended(d, view, lay, blocks) else Loaded(d, view, lay, blocks)
  }

  /** The stickers `setStickersData(data)` appends, entry i measured as `layouts[i]`. */
  function LoadedAll(data: seq<StickerData>, intended: bool, view: Viewport, layouts: seq<Layout>, blocks: seq<Placed>): (r: seq<Sticker>)
    requires |layouts| == |data|
    ensures |r| == |data|
  {
    seq(|data|, i requires 0 <= i < |data| =>
      LoadedBy(intended, data[i], view, layouts[i], blocks))
  }

  /** The sticker `addSticker` (or its corrected form) makes for entry `d` and attaches, before the saved lengths are written. */
  function Made(d: StickerData, intended: bool, view: Viewport, lay: Layout, blocks: seq<Placed>): Sticker {
    (if intended then NewStickerAsIntended(d.kind, d.content, view) else NewSticker(d.kind, d.content, view)).(
      parent := Attached(lay.box, lay.offsetWidth, lay.offsetHeight, blocks))
  }

  /** What `saveToLocalStorage` (or its corrected form) writes for `ss`. */
  function SavedBy(intended: bool, ss: seq<Sticker>): seq<StickerData> {
    if intended then StickersDataAsIntended(ss) else StickersData(ss)
  }

  /** One more entry is one more sticker at the end. */
  lemma LoadedAllStep(data: seq<StickerData>, intended: bool, view: Viewport, layouts: seq<Layout>, blocks: seq<Placed>, i: nat)
    requires |layouts| == |data| && i < |data|
    ensures LoadedAll(data[..i + 1], intended, view, layouts[..i + 1], blocks)
      == LoadedAll(data[..i], intended, view, layouts[..i], blocks)
        + [LoadedBy(intended, data[i], view, layouts[i], blocks)]
  {
    var d, l := data[..i + 1], layouts[..i + 1];
    assert d[..i] == data[..i] && l[..i] == layouts[..i] && d[i] == data[i] && l[i] == layouts[i];
    var whole, front := LoadedAll(d, intended, view, l, blocks), LoadedAll(data[..i], intended, view, layouts[..i], blocks);
    forall j | 0 <= j < i ensures whole[j] == front[j] {
      assert d[j] == data[..i][j] && l[j] == layouts[..i][j];
    }
  }

  /** The same step, for the board: `s0` and the stickers of the first i entries, then one more. */
  lemma LoadedAllAppend(s0: seq<Sticker>, data: seq<StickerData>, intended: bool, view: Viewport, layouts: seq<Layout>,
                        blocks: seq<Placed>, i: nat, prev: seq<Sticker>, next: seq<Sticker>)
    requires |layouts| == |data| && i < |data|
    requires prev == s0 + LoadedAll(data[..i], intended, view, layouts[..i], blocks)
    requires next == prev + [LoadedBy(intended, data[i], view, layouts[i], blocks)]
    ensures next == s0 + LoadedAll(data[..i + 1], intended, view, layouts[..i + 1], blocks)
  {
    LoadedAllStep(data, intended, view, layouts, blocks, i);
    var front := LoadedAll(data[..i], intended, view, layouts[..i], blocks);
    var x := LoadedBy(intended, data[i], view, layouts[i], blocks);
    assert s0 + front + [x] == s0 + (front + [x]);
  }

  /**
   * Saving a whole board as intended and reloading it onto an empty page
   * gives every sticker back, in order, up to the parents.
   */
  lemma BoardRoundTrip(ss: seq<Sticker>, view: Viewport, layouts: seq<Layout>, blocks: seq<Placed>)
    requires |layouts| == |ss|
    requires forall i :: 0 <= i < |ss| ==> Consistent(ss[i]) && ss[i].kind != Plain && (ss[i].kind == Text ==> ss[i].text != "")
    ensures var r := LoadedAll(StickersDataAsIntended(ss), true, view, layouts, blocks);
      |r| == |ss| && forall i :: 0 <= i < |ss| ==> r[i] == ss[i].(parent := r[i].parent)
  {
    var data := StickersDataAsIntended(ss);
    forall i | 0 <= i < |ss|
      ensures LoadedAll(data, true, view, layouts, blocks)[i] == ss[i].(parent := Attached(layouts[i].box, layouts[i].offsetWidth, layouts[i].offsetHeight, blocks))
    {
      ReloadRoundTrip(ss[i], view, layouts[i], blocks);
    }
  }

  class StickerBoard {
    var stickers: seq<Sticker>
    /** The `stickers` part of the last `portfolioData` record saved. */
    var saved: Option<seq<StickerData>>
    /** The drag whose `elementDrag` is `document.onmousemove`, if any. */
    var drag: Option<Drag>
    /** The resize whose `resize` listens on the window, if any. */
    var resizing: Option<Resizing>

    ghost predicate Valid()
      reads this
    {
      (drag.Some? ==> drag.value.index < |stickers|)
      && (resizing.Some? ==> resizing.value.index < |stickers|)
      && forall i :: 0 <= i < |stickers| ==> Consistent(stickers[i])
    }

    constructor (stored: Option<seq<StickerData>>)
      ensures Valid() && stickers == [] && saved == stored && drag.None? && resizing.None?
    {
      stickers, saved, drag, resizing := [], stored, None, None;
    }

    /** The stickers half of `saveToLocalStorage`. */
    method SaveToLocalStorage()
      modifies this`saved
      ensures saved == Some(StickersData(stickers))
    {
      saved := Some(StickersData(stickers));
    }

    /** The stickers half of `saveToLocalStorage`, saving the content as intended. */
    method SaveToLocalStorageAsIntended()
      modifies this`saved
      ensures saved == Some(StickersDataAsIntended(stickers))
    {
      saved := Some(StickersDataAsIntended(stickers));
    }

    /**
     * The loop of `attachToBlock`: the running `maxOverlap` from 0 and the
     * block it came from, then the half-area test. Nothing changes.
     */
    method ParentFor(lay: Layout, blocks: seq<Placed>) returns (parent: Option<string>)
      ensures parent == Attached(lay.box, lay.offsetWidth, lay.offsetHeight, blocks)
    {
      var maxOverlap := 0;
      var parentBlock: Option<nat> := None;
      ghost var areas := Areas(lay.box, blocks);
      var i := 0;
      while i < |blocks|
        invariant 0 <= i <= |blocks|
        invariant parentBlock == FirstMax(areas[..i], 0)
        invariant maxOverlap == BestArea(areas[..i], 0)
      {
        ScanStep(areas, 0, i, parentBlock, maxOverlap);
        var overlap := Overlap(lay.box, blocks[i].rect);
        assert overlap == areas[i];
        if overlap > maxOverlap {
          maxOverlap := overlap;
          parentBlock := Some(i);
        }
        i := i + 1;
      }
      assert areas[..i] == areas;
      assert parentBlock == FirstMax(areas, 0);
      if parentBlock.Some? && 2 * maxOverlap > lay.offsetWidth * lay.offsetHeight {
        parent := Some(blocks[parentBlock.value].id);
      } else {
        parent := None;
      }
    }

    /** `attachToBlock` on sticker k: it moves to the chosen block or back to the body. */
    method AttachToBlock(k: nat, lay: Layout, blocks: seq<Placed>)
      requires Valid() && k < |stickers|
      modifies this`stickers
      ensures Valid()
      ensures stickers == old(stickers)[k := old(stickers)[k].(parent := Attached(lay.box, lay.offsetWidth, lay.offsetHeight, blocks))]
    {
      var parent := ParentFor(lay, blocks);
      stickers := stickers[k := stickers[k].(parent := parent)];
    }

    /** The body of `addSticker` once the element is built: attach it, push it, save. */
    method Push(s: Sticker, lay: Layout, blocks: seq<Placed>)
      requires Valid() && Consistent(s)
      modifies this`stickers, this`saved
      ensures Valid()
      ensures stickers == old(stickers) + [s.(parent := Attached(lay.box, lay.offsetWidth, lay.offsetHeight, blocks))]
      ensures saved == Some(StickersData(stickers))
    {
      var parent := ParentFor(lay, blocks);
      stickers := stickers + [s.(parent := parent)];
      SaveToLocalStorage();
    }

    /** `addSticker(type, content)`, the new element measured as `lay`. */
    method AddSticker(kind: string, content: string, view: Viewport, lay: Layout, blocks: seq<Placed>)
      requires Valid()
      modifies this`stickers, this`saved
      ensures Valid()
      ensures stickers == old(stickers) + [NewSticker(kind, content, view).(parent := Attached(lay.box, lay.offsetWidth, lay.offsetHeight, blocks))]
      ensures saved == Some(StickersData(stickers))
    {
      NewStickerConsistent(kind, content, view);
      Push(NewSticker(kind, content, view), lay, blocks);
    }

    /** `addSticker` with a text sticker showing its content, as intended. */
    method AddStickerAsIntended(kind: string, content: string, view: Viewport, lay: Layout, blocks: seq<Placed>)
      requires Valid()
      modifies this`stickers, this`saved
      ensures Valid()
      ensures stickers == old(stickers) + [NewStickerAsIntended(kind, content, view).(parent := Attached(lay.box, lay.offsetWidth, lay.offsetHeight, blocks))]
      ensures saved == Some(StickersDataAsIntended(stickers))
    {
      NewStickerConsistent(kind, content, view);
      Push(NewStickerAsIntended(kind, content, view), lay, blocks);
      SaveToLocalStorageAsIntended();
    }

    /** Typing into a text sticker's editable paragraph; other stickers have none. Nothing is saved. */
    method EditText(k: nat, text: string)
      requires Valid() && k < |stickers|
      modifies this`stickers
      ensures Valid()
      ensures old(stickers)[k].kind == Text ==> stickers == old(stickers)[k := old(stickers)[k].(text := text)]
      ensures old(stickers)[k].kind != Text ==> stickers == old(stickers)
    {
      if stickers[k].kind == Text {
        stickers := stickers[k := stickers[k].(text := text)];
      }
    }

    /** Writes the saved lengths on the last sticker, as `setStickersData` does after each `addSticker`. */
    method SetLastLengths(d: StickerData)
      requires Valid() && stickers != []
      modifies this`stickers
      ensures Valid()
      ensures stickers == old(stickers)[|old(stickers)| - 1 :=
        old(stickers)[|old(stickers)| - 1].(left := d.left, top := d.top, width := d.width, height := d.height)]
    {
      var n := |stickers| - 1;
      stickers := stickers[n := stickers[n].(left := d.left, top := d.top, width := d.width, height := d.height)];
    }

    /** One entry of `setStickersData`: `addSticker` (or its corrected form), then the saved lengths on the new sticker. */
    method RestoreEntry(d: StickerData, intended: bool, view: Viewport, lay: Layout, blocks: seq<Placed>)
      requires Valid()
      modifies this`stickers, this`saved
      ensures Valid()
      ensures stickers == old(stickers) + [LoadedBy(intended, d, view, lay, blocks)]
      ensures saved == Some(SavedBy(intended, old(stickers) + [Made(d, intended, view, lay, blocks)]))
    {
      if intended {
        AddStickerAsIntended(d.kind, d.content, view, lay, blocks);
      } else {
        AddSticker(d.kind, d.content, view, lay, blocks);
      }
      SetLastLengths(d);
    }

    /**
     * `setStickersData(data)`, entry i measured as `layouts[i]` when it is
     * attached; `intended` selects the corrected `addSticker`. Each
     * `addSticker` saves before the saved lengths are written, so what is
     * saved at the end has the last sticker still where `addSticker` put it.
     */
    method RestoreAll(data: seq<StickerData>, intended: bool, view: Viewport, layouts: seq<Layout>, blocks: seq<Placed>)
      requires Valid() && |layouts| == |data|
      modifies this`stickers, this`saved
      ensures Valid()
      ensures stickers == old(stickers) + LoadedAll(data, intended, view, layouts, blocks)
      ensures data == [] ==> saved == old(saved)
      ensures data != [] ==> saved == Some(SavedBy(intended,
        stickers[..|stickers| - 1] + [Made(data[|data| - 1], intended, view, layouts[|data| - 1], blocks)]))
    {
      ghost var s0 := stickers;
      ghost var savedFrom: seq<Sticker> := [];
      var i := 0;
      while i < |data|
        invariant 0 <= i <= |data|
        invariant Valid()
        invariant stickers == s0 + LoadedAll(data[..i], intended, view, layouts[..i], blocks)
        invariant i == 0 ==> saved == old(saved)
        invariant i > 0 ==> saved == Some(SavedBy(intended, savedFrom))
        invariant i > 0 ==> savedFrom == stickers[..|stickers| - 1] + [Made(data[i - 1], intended, view, layouts[i - 1], blocks)]
      {
        ghost var prev := stickers;
        savedFrom := prev + [Made(data[i], intended, view, layouts[i], blocks)];
        RestoreEntry(data[i], intended, view, layouts[i], blocks);
        assert stickers[..|stickers| - 1] == prev;
        LoadedAllAppend(s0, data, intended, view, layouts, blocks, i, prev, stickers);
        i := i + 1;
      }
      assert data[..i] == data && layouts[..i] == layouts;
    }

    /** `setStickersData(data)`. */
    method SetStickersData(data: seq<StickerData>, view: Viewport, layouts: seq<Layout>, blocks: seq<Placed>)
      requires Valid() && |layouts| == |data|
      modifies this`stickers, this`saved
      ensures Valid()
      ensures stickers == old(stickers) + LoadedAll(data, false, view, layouts, blocks)
      ensures data == [] ==> saved == old(saved)
      ensures data != [] ==> saved == Some(StickersData(
        stickers[..|stickers| - 1] + [Made(data[|data| - 1], false, view, layouts[|data| - 1], blocks)]))
    {
      RestoreAll(data, false, view, layouts, blocks);
    }

    /** `setStickersData(data)` with the corrected `addSticker`. */
    method SetStickersDataAsIntended(data: seq<StickerData>, view: Viewport, layouts: seq<Layout>, blocks: seq<Placed>)
      requires Valid() && |layouts| == |data|
      modifies this`stickers, this`saved
      ensures Valid()
      ensures stickers == old(stickers) + LoadedAll(data, true, view, layouts, blocks)
      ensures data == [] ==> saved == old(saved)
      ensures data != [] ==> saved == Some(StickersDataAsIntended(
        stickers[..|stickers| - 1] + [Made(data[|data| - 1], true, view, layouts[|data| - 1], blocks)]))
    {
      RestoreAll(data, true, view, layouts, blocks);
    }

    /** `dragMouseDown`: in edit mode, the drag of sticker k starts at the pointer. */
    method DragMouseDown(k: nat, isEditing: bool, clientX: real, clientY: real)
      requires Valid() && k < |stickers|
      modifies this`drag
      ensures Valid()
      ensures drag == if isEditing then Some(Drag(k, clientX, clientY)) else old(drag)
    {
      if isEditing {
        drag := Some(Drag(k, clientX, clientY));
      }
    }

    /**
     * `elementDrag`: the sticker moves from where the layout has it by the
     * pointer's travel since the last step, and is attached again, measured
     * as `lay`, at every step. Nothing is saved.
     */
    method ElementDrag(clientX: real, clientY: real, offsetLeft: real, offsetTop: real, lay: Layout, blocks: seq<Placed>)
      requires Valid()
      modifies this`stickers, this`drag
      ensures Valid()
      ensures old(drag).None? ==> stickers == old(stickers) && drag == old(drag)
      ensures old(drag).Some? ==>
        var g := old(drag).value;
        drag == Some(Drag(g.index, clientX, clientY))
        && stickers == old(stickers)[g.index := old(stickers)[g.index].(
          left := Px(offsetLeft + (clientX - g.lastX)), top := Px(offsetTop + (clientY - g.lastY)),
          parent := Attached(lay.box, lay.offsetWidth, lay.offsetHeight, blocks))]
    {
      if drag.Some? {
        var g := drag.value;
        var pos1, pos2 := g.lastX - clientX, g.lastY - clientY;
        drag := Some(Drag(g.index, clientX, clientY));
        stickers := stickers[g.index := stickers[g.index].(top := Px(offsetTop - pos2), left := Px(offsetLeft - pos1))];
        AttachToBlock(g.index, lay, blocks);
      }
    }

    /** `closeDragElement`. */
    method CloseDragElement()
      requires Valid()
      modifies this`drag
      ensures Valid() && drag.None?
    {
      drag := None;
    }

    /** `initResize`: in edit mode, the resize of sticker k starts from the pointer and the computed size. */
    method InitResize(k: nat, isEditing: bool, clientX: real, clientY: real, startWidth: int, startHeight: int)
      requires Valid() && k < |stickers|
      modifies this`resizing
      ensures Valid()
      ensures resizing == if isEditing then Some(Resizing(k, clientX, clientY, startWidth, startHeight)) else old(resizing)
    {
      if isEditing {
        resizing := Some(Resizing(k, clientX, clientY, startWidth, startHeight));
      }
    }

    /**
     * `resize`: the start size plus the pointer's travel, with no minimum
     * in either direction. Nothing is saved.
     */
    method Resize(clientX: real, clientY: real)
      requires Valid()
      modifies this`stickers
      ensures Valid()
      ensures old(resizing).None? ==> stickers == old(stickers)
      ensures old(resizing).Some? ==>
        var r := old(resizing).value;
        stickers == old(stickers)[r.index := old(stickers)[r.index].(
          width := Px(r.startWidth as real + clientX - r.startX),
          height := Px(r.startHeight as real + clientY - r.startY))]
    {
      if resizing.Some? {
        var r := resizing.value;
        var width := r.startWidth as real + clientX - r.startX;
        var height := r.startHeight as real + clientY - r.startY;
        stickers := stickers[r.index := stickers[r.index].(width := Px(width), height := Px(height))];
      }
    }

    /** `stopResize`. */
    method StopResize()
      requires Valid()
      modifies this`resizing
      ensures Valid() && resizing.None?
    {
      resizing := None;
    }
  }
}
