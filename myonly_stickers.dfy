/**
 * myonly/stickers.js, class `StickersManager`: stickers are elements on the
 * page whose data attributes hold their link, colour, target and parent
 * block, and the dictionary under `portfolio_stickers` keeps one entry per
 * sticker id. Modelled: the overlap target while dragging, attaching on
 * release, the corner resize, the link dialog, the storage writers and the
 * loader. The clock and the random colour are parameters.
 */
module MyonlyStickers {
  import opened Wrappers
  import opened Storage
  import opened Geometry
  import opened JsText
  import Dict

  /** A stored sticker: every field may be missing, as in the JSON. */
  datatype Entry = Entry(
    id: Option<string>, kind: Option<string>, text: Option<string>, src: Option<string>,
    imageSrc: Option<string>, x: Option<real>, y: Option<real>, width: Option<real>,
    height: Option<real>, color: Option<string>, link: Option<string>)

  /** `{}`, which the writers start from when a sticker has no entry yet. */
  const Blank: Entry := Entry(None, None, None, None, None, None, None, None, None, None, None)

  /**
   * A sticker element: its `left`/`top` style, its `width`/`height` style
   * (`None` while the style sheet decides), and its data attributes
   * `targetBlock`, `parentBlock`, `link` and `color`.
   */
  datatype El = El(
    left: real, top: real, width: Option<real>, height: Option<real>,
    targetBlock: Option<string>, parentBlock: Option<string>,
    link: Option<string>, color: Option<string>)

  /** JavaScript truthiness of an optional string and an optional number. */
  predicate Truthy(s: Option<string>) { s.Some? && s.value != "" }
  predicate TruthyNum(n: Option<real>) { n.Some? && n.value != 0.0 }

  /**
   * The element `checkBlockOverlap` marks as target: the first block with the
   * largest positive overlap, when that overlap exceeds 30 % of the sticker's
   * area (`10·overlap > 3·area` in whole numbers); `""` when no block
   * overlaps at all; no target otherwise.
   */
  function OverlapTarget(box: Rect, blocks: seq<Placed>): (r: Option<string>)
    ensures WellFormed(box) ==>
      (r.Some? <==> exists j :: 0 <= j < |blocks| && 10 * Overlap(box, blocks[j].rect) > 3 * Area(box))
    ensures WellFormed(box) && r.Some? ==>
      exists k :: (0 <= k < |blocks| && r.value == blocks[k].id
        && (forall j :: 0 <= j < |blocks| ==> Overlap(box, blocks[j].rect) <= Overlap(box, blocks[k].rect))
        && (forall j :: 0 <= j < k ==> Overlap(box, blocks[j].rect) < Overlap(box, blocks[k].rect)))
  {
    var areas := Areas(box, blocks);
    var best := FirstMax(areas, 0);
    if 10 * BestArea(areas, 0) > 3 * Area(box) then
      AreaOfWellFormed(box);
      Some(if best.Some? then blocks[best.value].id else "")
    else
      None
  }

  lemma AreaOfWellFormed(box: Rect)
    ensures WellFormed(box) ==> Area(box) >= 0
  {
    if WellFormed(box) {
      PositiveProduct(Width(box), Height(box));
    }
  }

  /**
   * The new size of a sticker being resized from its corner `direction`,
   * with the start size and the pointer delta: `"se"` keeps the width at 100
   * or more and the start aspect ratio, which overrides the 80 floor on the
   * height; `"sw"` floors width and height at 100 and 80 and moves the left
   * edge by the delta; any other corner keeps the start size.
   */
  function Resized(direction: string, w0: real, h0: real, dx: real, dy: real): (r: (real, real))
    requires direction == "se" ==> w0 > 0.0 && h0 > 0.0
    ensures direction == "se" ==> r.0 >= 100.0 && (r.0 == 100.0 || r.0 == w0 + dx) && r.1 * w0 == r.0 * h0
    ensures direction == "sw" ==>
      (r.0 >= 100.0 && r.1 >= 80.0 && (r.0 == 100.0 || r.0 == w0 - dx) && (r.1 == 80.0 || r.1 == h0 + dy))
    ensures direction != "se" && direction != "sw" ==> r == (w0, h0)
  {
    if direction == "se" then
      var w := if w0 + dx >= 100.0 then w0 + dx else 100.0;
      var ratio := w0 / h0;
      (w, w / ratio)
    else if direction == "sw" then
      (if w0 - dx >= 100.0 then w0 - dx else 100.0, if h0 + dy >= 80.0 then h0 + dy else 80.0)
    else (w0, h0)
  }

  /** The `"se"` corner can leave a sticker lower than the 80 pixels `"sw"` guarantees. */
  lemma SeIgnoresHeightFloor()
    ensures Resized("se", 400.0, 100.0, -300.0, 0.0) == (100.0, 25.0)
  {
  }

  /** The stored entry written for sticker `id` by a field writer `f`, starting from `{}` when there was none. */
  function WithEntry(d: Dict.Dict<Entry>, id: string, f: Entry -> Entry): (r: Dict.Dict<Entry>)
    requires Dict.Valid(d)
    ensures Dict.Valid(r)
    ensures Dict.Get(r, id) == Some(f(if Dict.Get(d, id).Some? then Dict.Get(d, id).value else Blank))
    ensures forall k :: k != id ==> Dict.Get(r, k) == Dict.Get(d, k)
  {
    Dict.Put(d, id, f(if Dict.Get(d, id).Some? then Dict.Get(d, id).value else Blank))
  }

  /** `JSON.parse(localStorage.getItem('portfolio_stickers') || '{}')`: `None` when it throws. */
  function ReadStore(slot: Slot<Dict.Dict<Entry>>): (r: Option<Dict.Dict<Entry>>)
    ensures r.None? <==> slot.Unparseable?
  {
    ReadOr(slot, Dict.Empty())
  }

  /** A sticker kind the loader knows how to create. */
  predicate Known(e: Entry) { e.kind in {Some("text"), Some("image"), Some("video"), Some("mixed")} }

  /** The text and colour of stickers created without them. */
  const DefaultText: string := "双击编辑文本"
  const DefaultMixedText: string := "混合内容"

  /** `a || b` for a stored string and for a stored number. */
  function OrText(s: Option<string>, fallback: string): string { if Truthy(s) then s.value else fallback }
  function OrNum(n: Option<real>, fallback: real): real { if TruthyNum(n) then n.value else fallback }

  /**
   * What `createTextSticker`, `createImageSticker`, `createVideoSticker` and
   * `createMixedSticker` store for an entry read back by the loader, at
   * clock reading `now` and with `color` as the random colour; `None` for a
   * type the loader does not know.
   */
  function Recreated(e: Entry, now: nat, color: string): (r: Option<(string, Entry)>)
    ensures r.Some? <==> Known(e)
    ensures r.Some? ==>
      (r.value.1.id == Some(r.value.0) && r.value.1.kind == e.kind
       && r.value.1.x == Some(OrNum(e.x, 100.0)) && r.value.1.y == Some(OrNum(e.y, 100.0)))
  {
    var x := Some(OrNum(e.x, 100.0));
    var y := Some(OrNum(e.y, 100.0));
    if e.kind == Some("text") then
      var id := "sticker-text-" + Decimal(now);
      Some((id, Entry(Some(id), e.kind, Some(OrText(e.text, DefaultText)), None, None, x, y, Some(200.0), Some(160.0), Some(color), None)))
    else if e.kind == Some("image") then
      var id := "sticker-image-" + Decimal(now);
      Some((id, Entry(Some(id), e.kind, None, Some(OrText(e.src, "")), None, x, y, Some(200.0), Some(160.0), None, None)))
    else if e.kind == Some("video") then
      var id := "sticker-video-" + Decimal(now);
      Some((id, Entry(Some(id), e.kind, None, Some(OrText(e.src, "")), None, x, y, Some(300.0), Some(200.0), None, None)))
    else if e.kind == Some("mixed") then
      var id := "sticker-mixed-" + Decimal(now);
      Some((id, Entry(Some(id), e.kind, Some(OrText(e.text, DefaultMixedText)), None, Some(OrText(e.imageSrc, "")), x, y,
                      Some(250.0), Some(200.0), Some(color), None)))
    else None
  }

  /** A freshly inserted sticker element at `(x, y)`, with no size style and no data attributes. */
  function NewEl(x: real, y: real): El { El(x, y, None, None, None, None, None, None) }

  /**
   * The restore part of the loader's loop body: the element found under the
   * entry's `id` (the string "undefined" when it has none) takes the stored
   * size when both are truthy, and the stored link and colour when truthy.
   */
  function Restore(page: Dict.Dict<El>, e: Entry): (r: Dict.Dict<El>)
    requires Dict.Valid(page)
    ensures Dict.Valid(r)
  {
    var key := if e.id.Some? then e.id.value else "undefined";
    var found := Dict.Get(page, key);
    if found.None? then page
    else
      var el := found.value;
      var el1 := if TruthyNum(e.width) && TruthyNum(e.height) then el.(width := e.width, height := e.height) else el;
      var el2 := if Truthy(e.link) then el1.(link := e.link) else el1;
      var el3 := if Truthy(e.color) then el2.(color := e.color) else el2;
      Dict.Put(page, key, el3)
  }

  /** One pass of the loader's `forEach` over the entry `e`, the `i`-th value. */
  function LoadOne(page: Dict.Dict<El>, store: Dict.Dict<Entry>, e: Entry, i: nat, now: nat -> nat, color: nat -> string)
    : (r: (Dict.Dict<El>, Dict.Dict<Entry>))
    requires Dict.Valid(page) && Dict.Valid(store)
    ensures Dict.Valid(r.0) && Dict.Valid(r.1)
  {
    var made := Recreated(e, now(i), color(i));
    var (page1, store1) :=
      if made.None? then (page, store)
      else
        var (id, entry) := made.value;
        (if Dict.Get(page, id).Some? then page else Dict.Put(page, id, NewEl(entry.x.value, entry.y.value)),
         Dict.Put(store, id, entry));
    (Restore(page1, e), store1)
  }

  /** The loader over the first `|vals|` stored values. */
  function LoadAll(page: Dict.Dict<El>, store: Dict.Dict<Entry>, vals: seq<Entry>, now: nat -> nat, color: nat -> string)
    : (r: (Dict.Dict<El>, Dict.Dict<Entry>))
    requires Dict.Valid(page) && Dict.Valid(store)
    ensures Dict.Valid(r.0) && Dict.Valid(r.1)
    decreases |vals|
  {
    if vals == [] then (page, store)
    else
      var n := |vals| - 1;
      var prev := LoadAll(page, store, vals[..n], now, color);
      LoadOne(prev.0, prev.1, vals[n], n, now, color)
  }

  /** One more stored value: the loader over `vals[..i + 1]` is one `LoadOne` after the loader over `vals[..i]`. */
  lemma LoadAllStep(page: Dict.Dict<El>, store: Dict.Dict<Entry>, vals: seq<Entry>, i: nat, now: nat -> nat, color: nat -> string)
    requires Dict.Valid(page) && Dict.Valid(store) && i < |vals|
    ensures var prev := LoadAll(page, store, vals[..i], now, color);
      LoadAll(page, store, vals[..i + 1], now, color) == LoadOne(prev.0, prev.1, vals[i], i, now, color)
  {
    assert vals[..i + 1][..i] == vals[..i];
  }

  /**
   * What loading evidently intends: each stored sticker comes back under its
   * own id, with its stored size, link and colour, and the storage is left
   * as it is.
   */
  function RestoreOne(page: Dict.Dict<El>, e: Entry): (r: Dict.Dict<El>)
    requires Dict.Valid(page)
    ensures Dict.Valid(r)
    ensures e.id.Some? && Known(e) ==>
      Dict.Get(r, e.id.value).Some?
      && (TruthyNum(e.width) && TruthyNum(e.height) ==>
            Dict.Get(r, e.id.value).value.width == e.width && Dict.Get(r, e.id.value).value.height == e.height)
    ensures forall k :: (e.id.None? || k != e.id.value) ==> Dict.Get(r, k) == Dict.Get(page, k)
  {
    if e.id.None? || !Known(e) then page
    else
      var page1 := if Dict.Get(page, e.id.value).Some? then page
                   else Dict.Put(page, e.id.value, NewEl(OrNum(e.x, 100.0), OrNum(e.y, 100.0)));
      Restore(page1, e)
  }

  /** The corrected loader over the first `|vals|` stored values. */
  function RestoreAll(page: Dict.Dict<El>, vals: seq<Entry>): (r: Dict.Dict<El>)
    requires Dict.Valid(page)
    ensures Dict.Valid(r)
    decreases |vals|
  {
    if vals == [] then page else RestoreOne(RestoreAll(page, vals[..|vals| - 1]), vals[|vals| - 1])
  }

  /** No two stored values name the same id. */
  predicate DistinctIds(vals: seq<Entry>) {
    forall i, j :: 0 <= i < j < |vals| && vals[i].id.Some? ==> vals[i].id != vals[j].id
  }

  /**
   * With ids that are not repeated, the corrected loader puts every stored
   * sticker of a known kind on the page under its own id, with the stored
   * size whenever both numbers are set.
   */
  lemma {:induction false} RestoreAllRestores(page: Dict.Dict<El>, vals: seq<Entry>, k: nat)
    requires Dict.Valid(page) && DistinctIds(vals)
    requires k < |vals| && vals[k].id.Some? && Known(vals[k])
    ensures var el := Dict.Get(RestoreAll(page, vals), vals[k].id.value);
      el.Some? && (TruthyNum(vals[k].width) && TruthyNum(vals[k].height) ==>
                   el.value.width == vals[k].width && el.value.height == vals[k].height)
    decreases |vals|
  {
    var n := |vals| - 1;
    var prev := vals[..n];
    assert DistinctIds(prev) by {
      forall i, j | 0 <= i < j < |prev| && prev[i].id.Some? ensures prev[i].id != prev[j].id {
        assert prev[i] == vals[i] && prev[j] == vals[j];
      }
    }
    if k < n {
      RestoreAllRestores(page, prev, k);
      assert prev[k] == vals[k];
      assert vals[k].id != vals[n].id;
    }
  }

  class StickersManager {
    /** The dictionary under `portfolio_stickers`. */
    var store: Slot<Dict.Dict<Entry>>
    /** The sticker elements on the page, by id, in document order. */
    var page: Dict.Dict<El>
    var active: Option<string>
    var isResizing: bool
    var resizeStart: (real, real)
    var resizeStartSize: (real, real)
    /** `resizeDirection`; `""` for `null`. */
    var direction: string

    predicate Valid()
      reads this
    {
      Dict.Valid(page) && (store.Stored? ==> Dict.Valid(store.value))
    }

    constructor (store: Slot<Dict.Dict<Entry>>)
      requires store.Stored? ==> Dict.Valid(store.value)
      ensures Valid() && this.store == store && page == Dict.Empty() && active.None? && !isResizing
    {
      this.store := store;
      page := Dict.Empty();
      active := None;
      isResizing := false;
      resizeStart := (0.0, 0.0);
      resizeStartSize := (0.0, 0.0);
      direction := "";
    }

    /**
     * `checkBlockOverlap`: the scan over the block boxes, whose result is
     * stored as the sticker's `targetBlock`.
     */
    method CheckBlockOverlap(id: string, box: Rect, blocks: seq<Placed>)
      requires Valid() && id in page.values
      modifies this`page
      ensures Valid()
      ensures page == Dict.Put(old(page), id, old(page).values[id].(targetBlock := OverlapTarget(box, blocks)))
    {
      var areas := Areas(box, blocks);
      var best, maxOverlap := ScanMax(areas, 0);
      var target: Option<string> := None;
      if 10 * maxOverlap > 3 * Area(box) {
        target := Some(if best.Some? then blocks[best.value].id else "");
      }
      page := Dict.Put(page, id, page.values[id].(targetBlock := target));
    }

    /**
     * `attachToBlock`: no target (or an empty one) detaches the sticker
     * (`parentBlock` becomes `""`); a target that is an element on the page
     * becomes the parent; any other target changes nothing.
     */
    method AttachToBlock(id: string, elementIds: set<string>)
      requires Valid() && id in page.values
      modifies this`page
      ensures Valid()
      ensures var t := old(page).values[id].targetBlock;
        if !Truthy(t) then page == Dict.Put(old(page), id, old(page).values[id].(parentBlock := Some("")))
        else if t.value in elementIds then page == Dict.Put(old(page), id, old(page).values[id].(parentBlock := t))
        else page == old(page)
    {
      var t := page.values[id].targetBlock;
      if !Truthy(t) {
        page := Dict.Put(page, id, page.values[id].(parentBlock := Some("")));
      } else if t.value in elementIds {
        page := Dict.Put(page, id, page.values[id].(parentBlock := t));
      }
    }

    /**
     * `startResize`: in edit mode, remembers the sticker, the pointer, the
     * sticker's box size and the handle's corner (`"se"` when it names none).
     */
    method StartResize(isEditMode: bool, id: string, clientX: real, clientY: real, w: real, h: real, handleDirection: string)
      modifies this`isResizing, this`active, this`resizeStart, this`resizeStartSize, this`direction
      ensures !isEditMode ==> isResizing == old(isResizing) && active == old(active) && direction == old(direction)
                              && resizeStart == old(resizeStart) && resizeStartSize == old(resizeStartSize)
      ensures isEditMode ==> isResizing && active == Some(id) && resizeStart == (clientX, clientY)
                             && resizeStartSize == (w, h) && direction == (if handleDirection == "" then "se" else handleDirection)
    {
      if !isEditMode {
        return;
      }
      isResizing := true;
      active := Some(id);
      resizeStart := (clientX, clientY);
      resizeStartSize := (w, h);
      direction := if handleDirection == "" then "se" else handleDirection;
    }

    /**
     * `handleResizeMove`: the active sticker's size style becomes `Resized`
     * of the start size and the pointer delta; the `"sw"` corner also adds
     * the delta to the sticker's current `left`.
     */
    method HandleResizeMove(clientX: real, clientY: real)
      requires Valid()
      requires direction == "se" ==> resizeStartSize.0 > 0.0 && resizeStartSize.1 > 0.0
      modifies this`page
      ensures Valid()
      ensures active.None? || active.value !in old(page).values ==> page == old(page)
      ensures active.Some? && active.value in old(page).values ==>
        var dx := clientX - resizeStart.0;
        var dy := clientY - resizeStart.1;
        var size := Resized(direction, resizeStartSize.0, resizeStartSize.1, dx, dy);
        var el := old(page).values[active.value];
        page == Dict.Put(old(page), active.value,
          el.(left := if direction == "sw" then el.left + dx else el.left, width := Some(size.0), height := Some(size.1)))
    {
      if active.None? || active.value !in page.values {
        return;
      }
      var dx := clientX - resizeStart.0;
      var dy := clientY - resizeStart.1;
      var size := Resized(direction, resizeStartSize.0, resizeStartSize.1, dx, dy);
      var el := page.values[active.value];
      if direction == "sw" {
        el := el.(left := el.left + dx);
      }
      page := Dict.Put(page, active.value, el.(width := Some(size.0), height := Some(size.1)));
    }

    /** The shape of every field writer: read the dictionary, rewrite one entry, store it; nothing when the read throws. */
    method WriteEntry(id: string, f: Entry -> Entry)
      requires Valid()
      modifies this`store
      ensures Valid()
      ensures var d := ReadStore(old(store));
        store == if d.None? then old(store) else Stored(WithEntry(d.value, id, f))
    {
      var d := ReadStore(store);
      if d.Some? {
        store := Stored(WithEntry(d.value, id, f));
      }
    }

    /** `saveStickerPosition`: the element's `left` and `top` into its entry. */
    method SaveStickerPosition(id: string)
      requires Valid() && id in page.values
      modifies this`store
      ensures Valid()
      ensures var d := ReadStore(old(store)); var el := page.values[id];
        store == if d.None? then old(store) else Stored(WithEntry(d.value, id, (e: Entry) => e.(x := Some(el.left), y := Some(el.top))))
    {
      var el := page.values[id];
      WriteEntry(id, (e: Entry) => e.(x := Some(el.left), y := Some(el.top)));
    }

    /** `saveStickerSize`: the element's rendered size (`offsetWidth`, `offsetHeight`) into its entry. */
    method SaveStickerSize(id: string, offsetWidth: nat, offsetHeight: nat)
      requires Valid()
      modifies this`store
      ensures Valid()
      ensures var d := ReadStore(old(store));
        store == if d.None? then old(store)
                 else Stored(WithEntry(d.value, id, (e: Entry) => e.(width := Some(offsetWidth as real), height := Some(offsetHeight as real))))
    {
      WriteEntry(id, (e: Entry) => e.(width := Some(offsetWidth as real), height := Some(offsetHeight as real)));
    }

    /** `saveStickerText`. */
    method SaveStickerText(id: string, text: string)
      requires Valid()
      modifies this`store
      ensures Valid()
      ensures var d := ReadStore(old(store));
        store == if d.None? then old(store) else Stored(WithEntry(d.value, id, (e: Entry) => e.(text := Some(text))))
    {
      WriteEntry(id, (e: Entry) => e.(text := Some(text)));
    }

    /** `saveStickerLink`. */
    method SaveStickerLink(id: string, link: string)
      requires Valid()
      modifies this`store
      ensures Valid()
      ensures var d := ReadStore(old(store));
        store == if d.None? then old(store) else Stored(WithEntry(d.value, id, (e: Entry) => e.(link := Some(link))))
    {
      WriteEntry(id, (e: Entry) => e.(link := Some(link)));
    }

    /** `saveNewSticker`: the whole entry is replaced. */
    method SaveNewSticker(id: string, entry: Entry)
      requires Valid()
      modifies this`store
      ensures Valid()
      ensures var d := ReadStore(old(store));
        store == if d.None? then old(store) else Stored(Dict.Put(d.value, id, entry))
    {
      var d := ReadStore(store);
      if d.Some? {
        store := Stored(Dict.Put(d.value, id, entry));
      }
    }

    /** `updateStickerImage`: only an existing entry gets the new source, and only then is anything stored. */
    method UpdateStickerImage(id: string, src: string)
      requires Valid()
      modifies this`store
      ensures Valid()
      ensures var d := ReadStore(old(store));
        store == if d.None? || Dict.Get(d.value, id).None? then old(store)
                 else Stored(Dict.Put(d.value, id, Dict.Get(d.value, id).value.(src := Some(src))))
    {
      var d := ReadStore(store);
      if d.Some? && Dict.Get(d.value, id).Some? {
        store := Stored(Dict.Put(d.value, id, Dict.Get(d.value, id).value.(src := Some(src))));
      }
    }

    /** `deleteStickerFromStorage`: exactly that key goes. */
    method DeleteStickerFromStorage(id: string)
      requires Valid()
      modifies this`store
      ensures Valid()
      ensures var d := ReadStore(old(store));
        store == if d.None? then old(store) else Stored(Dict.Remove(d.value, id))
    {
      var d := ReadStore(store);
      if d.Some? {
        store := Stored(Dict.Remove(d.value, id));
      }
    }

    /**
     * `showLinkDialog` with the prompt's answer (`None` when cancelled): a
     * blank answer removes the element's link but leaves the storage alone;
     * any other answer becomes the link, on the element and in storage.
     */
    method ShowLinkDialog(id: string, url: Option<string>)
      requires Valid() && id in page.values
      modifies this`page, this`store
      ensures Valid()
      ensures url.None? ==> page == old(page) && store == old(store)
      ensures url.Some? && Trim(url.value) == "" ==>
        page == Dict.Put(old(page), id, old(page).values[id].(link := None)) && store == old(store)
      ensures url.Some? && Trim(url.value) != "" ==>
        page == Dict.Put(old(page), id, old(page).values[id].(link := url))
        && var d := ReadStore(old(store));
           store == if d.None? then old(store) else Stored(WithEntry(d.value, id, (e: Entry) => e.(link := Some(url.value))))
    {
      if url.None? {
        return;
      }
      if Trim(url.value) == "" {
        page := Dict.Put(page, id, page.values[id].(link := None));
      } else {
        page := Dict.Put(page, id, page.values[id].(link := url));
        SaveStickerLink(id, url.value);
      }
    }

    /**
     * `loadStickersFromStorage` as written: each stored value of a known type
     * is created again through its `create*Sticker`, under a new id made
     * from the clock, which also stores a new entry; the stored size, link
     * and colour are then looked up under the old id.
     */
    method LoadStickersFromStorage(now: nat -> nat, color: nat -> string)
      requires Valid()
      modifies this`page, this`store
      ensures Valid()
      ensures var d := ReadStore(old(store));
        if d.None? then page == old(page) && store == old(store)
        else (page, store) == (LoadAll(old(page), d.value, Dict.Values(d.value), now, color).0,
                               Stored(LoadAll(old(page), d.value, Dict.Values(d.value), now, color).1))
    {
      var d := ReadStore(store);
      if d.None? {
        return;
      }
      var vals := Dict.Values(d.value);
      var p0 := page;
      var p := page;
      var s := d.value;
      var i := 0;
      while i < |vals|
        invariant 0 <= i <= |vals|
        invariant Dict.Valid(p) && Dict.Valid(s)
        invariant (p, s) == LoadAll(p0, d.value, vals[..i], now, color)
      {
        LoadAllStep(p0, d.value, vals, i, now, color);
        var r := LoadOne(p, s, vals[i], i, now, color);
        p, s := r.0, r.1;
        i := i + 1;
      }
      assert vals[..i] == vals;
      page, store := p, Stored(s);
    }

    /**
     * The loader as evidently intended: each stored sticker of a known kind
     * comes back under its own id, with its stored size, link and colour,
     * and the storage is left as it is.
     */
    method RestoreStickersFromStorage()
      requires Valid()
      modifies this`page
      ensures Valid()
      ensures var d := ReadStore(store);
        page == if d.None? then old(page) else RestoreAll(old(page), Dict.Values(d.value))
    {
      var d := ReadStore(store);
      if d.None? {
        return;
      }
      var vals := Dict.Values(d.value);
      var i := 0;
      while i < |vals|
        invariant 0 <= i <= |vals|
        invariant Dict.Valid(page)
        invariant page == RestoreAll(old(page), vals[..i])
      {
        assert vals[..i + 1][..i] == vals[..i];
        page := RestoreOne(page, vals[i]);
        i := i + 1;
      }
      assert vals[..i] == vals;
    }
  }

  /**
   * What the loader does to a page with no stickers and a storage holding one
   * text sticker, when the clock has moved on since it was created: the
   * storage ends with two entries, and the one sticker on the page has the
   * new id and no size, whatever size was stored.
   */
  lemma {:induction false} LoadDuplicatesAndLosesSize(e: Entry, now: nat -> nat, color: nat -> string)
    requires e.id.Some? && e.kind == Some("text")
    requires e.id.value != "sticker-text-" + Decimal(now(0))
    ensures var store := Dict.Dict([e.id.value], map[e.id.value := e]);
      var newId := "sticker-text-" + Decimal(now(0));
      var r := LoadAll(Dict.Empty(), store, [e], now, color);
      r.1.order == [e.id.value, newId]
      && r.0.order == [newId]
      && Dict.Get(r.0, e.id.value).None?
      && Dict.Get(r.0, newId).value.width.None?
  {
    var store := Dict.Dict([e.id.value], map[e.id.value := e]);
    var empty: Dict.Dict<El> := Dict.Empty();
    var newId := "sticker-text-" + Decimal(now(0));
    assert [e][..0] == [];
    assert LoadAll(empty, store, [e][..0], now, color) == (empty, store);
    var made := Recreated(e, now(0), color(0));
    assert made.value.0 == newId;
    var page1 := Dict.Put(empty, newId, NewEl(made.value.1.x.value, made.value.1.y.value));
    assert Restore(page1, e) == page1;
  }
}
