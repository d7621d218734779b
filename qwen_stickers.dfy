/**
 * qwenooooo/stickers.js: the module-level `stickers` object, a list of
 * sticker records per block id, kept under `portfolio_stickers`. Dropping a
 * dragged sticker moves its record to the block it overlaps most;
 * `addStickerToBlock` appends a record with defaults; the add menu picks the
 * block across the middle of the window. Element rectangles, the window
 * height and `Date.now()` are parameters; the DOM itself is left out.
 */
module QwenStickers {
  import opened Wrappers
  import opened Storage
  import opened Geometry
  import opened Records
  import opened JsText
  import Dict

  datatype Sticker = Sticker(
    id: string, kind: string, x: int, y: int, width: int, height: int,
    parentBlock: string, content: Option<string>, src: Option<string>)

  /** The `stickers` object: block id to that block's list of records. */
  type Board = Dict.Dict<seq<Sticker>>

  /**
   * The first line of the file: the stored object, or `{}` when nothing is
   * stored; `None` when the stored text does not parse and the script stops.
   */
  function Initial(slot: Slot<Board>): (r: Option<Board>)
    ensures slot.Absent? ==> r == Some(Dict.Empty())
    ensures slot.Stored? ==> r == Some(slot.value)
    ensures slot.Unparseable? ==> r.None?
  {
    ReadOr(slot, Dict.Empty())
  }

  /** `stickers[blockId] || []`. */
  function ListOf(d: Board, blockId: string): seq<Sticker> {
    if blockId in d.values then d.values[blockId] else []
  }

  function NotId(id: string): Sticker -> bool {
    (s: Sticker) => s.id != id
  }

  /** A block's list with every record of sticker `id` filtered out; absent lists stay absent. */
  function Stripped(l: Option<seq<Sticker>>, id: string): Option<seq<Sticker>> {
    if l.None? then None else Some(Filter(l.value, NotId(id)))
  }

  /** The fields the `data` argument of `addStickerToBlock` may supply; each one given wins. */
  datatype Patch = Patch(
    id: Option<string>, kind: Option<string>, x: Option<int>, y: Option<int>,
    width: Option<int>, height: Option<int>, parentBlock: Option<string>,
    content: Option<string>, src: Option<string>)

  const NoPatch: Patch := Patch(None, None, None, None, None, None, None, None, None)

  function Pick<T>(given: Option<T>, default: T): T {
    if given.Some? then given.value else default
  }

  /** `{ id, type, x: 100, y: 100, width: 200, height: 160, parentBlock, ...data }`. */
  function NewSticker(id: string, kind: string, blockId: string, data: Patch): Sticker {
    Sticker(Pick(data.id, id), Pick(data.kind, kind), Pick(data.x, 100), Pick(data.y, 100),
            Pick(data.width, 200), Pick(data.height, 160), Pick(data.parentBlock, blockId),
            data.content, data.src)
  }

  /** With no data the record is at (100, 100), 200 by 160, in the block it was added to. */
  lemma NewStickerDefaults(id: string, kind: string, blockId: string)
    ensures NewSticker(id, kind, blockId, NoPatch) == Sticker(id, kind, 100, 100, 200, 160, blockId, None, None)
  {
  }

  /** Every field the data supplies overrides the default. */
  lemma NewStickerOverrides(id: string, kind: string, blockId: string, data: Patch)
    ensures data.x.Some? ==> NewSticker(id, kind, blockId, data).x == data.x.value
    ensures data.y.Some? ==> NewSticker(id, kind, blockId, data).y == data.y.value
    ensures data.parentBlock.Some? ==> NewSticker(id, kind, blockId, data).parentBlock == data.parentBlock.value
    ensures data.parentBlock.None? ==> NewSticker(id, kind, blockId, data).parentBlock == blockId
  {
  }

  /** The dragged element as the drop reads it back: its inline box, text and media child. */
  datatype Element = Element(
    left: int, top: int, width: int, height: int, text: string,
    img: Option<string>, video: Option<string>)

  /** The type inferred from the element's children: an `img` first, then a `video`, else text. */
  function Kind(el: Element): (k: string)
    ensures k == "image" <==> el.img.Some?
    ensures k == "video" <==> el.img.None? && el.video.Some?
    ensures k == "text" <==> el.img.None? && el.video.None?
  {
    if el.img.Some? then "image" else if el.video.Some? then "video" else "text"
  }

  /** `img?.src || video?.src || ''`. */
  function Source(el: Element): string {
    if el.img.Some? && el.img.value != "" then el.img.value
    else if el.video.Some? && el.video.value != "" then el.video.value
    else ""
  }

  /** The record the drop re-saves for the sticker under the winning block. */
  function Dropped(id: string, target: string, el: Element): (r: Sticker)
    ensures r.id == id && r.parentBlock == target && r.kind == Kind(el)
    ensures (r.x, r.y, r.width, r.height) == (el.left, el.top, el.width, el.height)
  {
    Sticker(id, Kind(el), el.left, el.top, el.width, el.height, target, Some(el.text), Some(Source(el)))
  }

  /**
   * The board after the drop moved sticker `id` to `target` as `rec`: every
   * other block keeps its list less that sticker, and the target's list
   * (created when missing) loses it and gets `rec` at the end.
   */
  ghost predicate Reparented(o: Board, n: Board, id: string, target: string, rec: Sticker) {
    Dict.Valid(n)
    && n.order == (if target in o.values then o.order else o.order + [target])
    && (forall k :: k != target ==> Dict.Get(n, k) == Stripped(Dict.Get(o, k), id))
    && Dict.Get(n, target) == Some(Filter(ListOf(o, target), NotId(id)) + [rec])
  }

  /**
   * After the drop the sticker's id occurs exactly once in the whole object:
   * as the last record of the target block.
   */
  lemma ReparentedOnce(o: Board, n: Board, id: string, target: string, rec: Sticker)
    requires Reparented(o, n, id, target, rec) && rec.id == id
    ensures target in n.values && |n.values[target]| > 0 && n.values[target][|n.values[target]| - 1] == rec
    ensures forall k, i :: k in n.values && 0 <= i < |n.values[k]| && n.values[k][i].id == id ==>
      k == target && i == |n.values[target]| - 1
  {
    assert Dict.Get(n, target).Some?;
    var last := |n.values[target]| - 1;
    forall k, i | k in n.values && 0 <= i < |n.values[k]| && !(k == target && i == last)
      ensures n.values[k][i].id != id
    {
      if k != target {
        assert Dict.Get(n, k) == Stripped(Dict.Get(o, k), id);
        assert n.values[k][i] in n.values[k];
      } else {
        var kept := Filter(ListOf(o, target), NotId(id));
        assert n.values[k][i] == kept[i];
      }
    }
  }

  /** No other sticker is lost or moved: each record with another id stays in its block. */
  lemma ReparentedKeepsOthers(o: Board, n: Board, id: string, target: string, rec: Sticker, k: string, s: Sticker)
    requires Reparented(o, n, id, target, rec)
    requires k in o.values && s in o.values[k] && s.id != id
    ensures k in n.values && s in n.values[k]
  {
    assert NotId(id)(s);
    if k == target {
      assert Dict.Get(n, target).Some?;
      assert s in Filter(ListOf(o, target), NotId(id));
    } else {
      assert Dict.Get(n, k) == Stripped(Dict.Get(o, k), id);
    }
  }

  /** What the `mousedown` of a sticker records in its closure. */
  datatype Grab = Grab(id: string, offsetX: int, offsetY: int)

  class StickerBoard {
    var stickers: Board
    /** `portfolio_stickers` in `localStorage`. */
    var saved: Slot<Board>
    /** The sticker being dragged, if any. */
    var grab: Option<Grab>

    ghost predicate Valid()
      reads this
    {
      Dict.Valid(stickers)
    }

    /** The state once the first line has run, with `initial` what it read. */
    constructor (stored: Slot<Board>, initial: Board)
      requires Initial(stored) == Some(initial)
      requires Dict.Valid(initial)
      ensures Valid() && stickers == initial && saved == stored && grab.None?
    {
      stickers := initial;
      saved := stored;
      grab := None;
    }

    /** `saveStickers`. */
    method SaveStickers()
      modifies this`saved
      ensures saved == Stored(stickers)
    {
      saved := Stored(stickers);
    }

    /**
     * `addStickerToBlock(blockId, type, data)` with `Date.now()` as `now`:
     * the block's list is created when missing and gets one record; every
     * other block's list is unchanged; the object is saved.
     */
    method AddStickerToBlock(blockId: string, kind: string, data: Patch, now: nat) returns (added: Sticker)
      requires Valid()
      modifies this`stickers, this`saved
      ensures Valid()
      ensures added == NewSticker("sticker-" + Decimal(now), kind, blockId, data)
      ensures Dict.Get(stickers, blockId) == Some(ListOf(old(stickers), blockId) + [added])
      ensures forall k :: k != blockId ==> Dict.Get(stickers, k) == Dict.Get(old(stickers), k)
      ensures saved == Stored(stickers)
    {
      if blockId !in stickers.values {
        stickers := Dict.Put(stickers, blockId, []);
      }
      added := NewSticker("sticker-" + Decimal(now), kind, blockId, data);
      stickers := Dict.Put(stickers, blockId, stickers.values[blockId] + [added]);
      SaveStickers();
    }

    /** A sticker's `mousedown`: ignored outside edit mode; records the pointer's offset in the sticker. */
    method MouseDown(id: string, editMode: bool, clientX: int, clientY: int, box: Rect)
      modifies this`grab
      ensures grab == if editMode then Some(Grab(id, clientX - box.left, clientY - box.top)) else old(grab)
    {
      if editMode {
        grab := Some(Grab(id, clientX - box.left, clientY - box.top));
      }
    }

    /**
     * The document `mousemove` while dragging: the new left and top of the
     * sticker, and the block to outline, the one the sticker (now at `box`)
     * overlaps most. Nothing is stored.
     */
    method MouseMove(clientX: int, clientY: int, box: Rect, blocks: seq<Placed>)
      returns (pos: Option<(int, int)>, outlined: Option<nat>)
      ensures grab.None? ==> pos.None? && outlined.None?
      ensures grab.Some? ==>
        pos == Some((clientX - grab.value.offsetX, clientY - grab.value.offsetY))
        && outlined == FirstMax(Areas(box, blocks), 0)
    {
      if grab.None? {
        return None, None;
      }
      pos := Some((clientX - grab.value.offsetX, clientY - grab.value.offsetY));
      outlined := BestBlock(box, blocks);
    }

    /**
     * The document `mouseup` after a drag: the sticker's record is filtered
     * out of every block's list, and when some block strictly intersects
     * the sticker, the record as read back from `el` is appended to the
     * list of the block with the largest overlap, and the object is saved.
     * With no such block nothing changes.
     */
    method MouseUp(el: Element, box: Rect, blocks: seq<Placed>) returns (winner: Option<nat>)
      requires Valid()
      modifies this`stickers, this`saved, this`grab
      ensures Valid() && grab.None?
      ensures old(grab).None? ==> winner.None?
      ensures old(grab).Some? ==> winner == FirstMax(Areas(box, blocks), 0)
      ensures winner.None? ==> stickers == old(stickers) && saved == old(saved)
      ensures winner.Some? ==>
        var id, target := old(grab).value.id, blocks[winner.value].id;
        Reparented(old(stickers), stickers, id, target, Dropped(id, target, el))
        && saved == Stored(stickers)
    {
      if grab.None? {
        return None;
      }
      var id := grab.value.id;
      grab := None;
      winner := BestBlock(box, blocks);
      if winner.None? {
        return;
      }
      var target := blocks[winner.value].id;
      RemoveEverywhere(id);
      ghost var stripped := stickers;
      if target !in stickers.values {
        stickers := Dict.Put(stickers, target, []);
      }
      var rec := Dropped(id, target, el);
      stickers := Dict.Put(stickers, target, stickers.values[target] + [rec]);
      assert Dict.Get(stripped, target) == Stripped(Dict.Get(old(stickers), target), id);
      SaveStickers();
    }

    /** The `Object.keys(stickers).forEach` that filters sticker `id` out of every list. */
    method RemoveEverywhere(id: string)
      requires Valid()
      modifies this`stickers
      ensures Valid() && stickers.order == old(stickers).order
      ensures forall k :: Dict.Get(stickers, k) == Stripped(Dict.Get(old(stickers), k), id)
    {
      var keys := stickers.order;
      var i := 0;
      while i < |keys|
        invariant 0 <= i <= |keys|
        invariant Dict.Valid(stickers) && stickers.order == keys
        invariant forall k :: (Dict.Get(stickers, k) ==
          (if k in keys[..i] then Stripped(Dict.Get(old(stickers), k), id) else Dict.Get(old(stickers), k)))
      {
        var k := keys[i];
        assert Distinct(keys) && forall j :: 0 <= j < i ==> keys[j] != k;
        assert k !in keys[..i];
        assert keys[..i + 1] == keys[..i] + [k];
        stickers := Dict.Put(stickers, k, Filter(stickers.values[k], NotId(id)));
        i := i + 1;
      }
      assert keys[..i] == keys;
    }
  }

  /**
   * The `forEach` over the blocks with its running maximum: only strictly
   * intersecting blocks count, and the first with the largest area wins.
   */
  method BestBlock(box: Rect, blocks: seq<Placed>) returns (best: Option<nat>)
    ensures best == FirstMax(Areas(box, blocks), 0)
  {
    best := None;
    var maxOverlap := 0;
    ghost var areas := Areas(box, blocks);
    var i := 0;
    while i < |blocks|
      invariant 0 <= i <= |blocks|
      invariant best == FirstMax(areas[..i], 0)
      invariant maxOverlap == BestArea(areas[..i], 0)
    {
      ScanStep(areas, 0, i, best, maxOverlap);
      var area := StrictOverlap(box, blocks[i].rect);
      assert areas[i] == Overlap(box, blocks[i].rect);
      if area.Some? && area.value > maxOverlap {
        best, maxOverlap := Some(i), area.value;
      }
      i := i + 1;
    }
    assert areas[..i] == areas;
  }

  /** The block of `handleAddSticker`: spans the middle of the window (`top < h/2 < bottom`). */
  predicate SpansMiddle(r: Rect, innerHeight: int) {
    2 * r.top < innerHeight && 2 * r.bottom > innerHeight
  }

  /**
   * The `for ... of` loop of `handleAddSticker` with its `break`: the first
   * block spanning the middle of the window, otherwise the first block,
   * and none when there are no blocks.
   */
  method TargetBlock(blocks: seq<Placed>, innerHeight: int) returns (t: Option<nat>)
    ensures t.None? <==> blocks == []
    ensures t.Some? ==> t.value < |blocks|
    ensures t.Some? && SpansMiddle(blocks[t.value].rect, innerHeight) ==>
      forall j :: 0 <= j < t.value ==> !SpansMiddle(blocks[j].rect, innerHeight)
    ensures t.Some? && !SpansMiddle(blocks[t.value].rect, innerHeight) ==>
      t.value == 0 && forall j :: 0 <= j < |blocks| ==> !SpansMiddle(blocks[j].rect, innerHeight)
  {
    t := None;
    var i := 0;
    while i < |blocks|
      invariant 0 <= i <= |blocks|
      invariant t.None?
      invariant forall j :: 0 <= j < i ==> !SpansMiddle(blocks[j].rect, innerHeight)
    {
      if SpansMiddle(blocks[i].rect, innerHeight) {
        t := Some(i);
        break;
      }
      i := i + 1;
    }
    if t.None? && |blocks| > 0 {
      t := Some(0);
    }
  }

  /**
   * `handleAddSticker(type)`: a default sticker of that type goes into the
   * chosen block; with no blocks nothing happens.
   */
  method HandleAddSticker(board: StickerBoard, kind: string, blocks: seq<Placed>, innerHeight: int, now: nat)
    returns (target: Option<nat>)
    requires board.Valid()
    modifies board`stickers, board`saved
    ensures board.Valid()
    ensures target.None? <==> blocks == []
    ensures target.None? ==> board.stickers == old(board.stickers) && board.saved == old(board.saved)
    ensures target.Some? ==> (
      target.value < |blocks| &&
      var blockId := blocks[target.value].id;
      Dict.Get(board.stickers, blockId) ==
        Some(ListOf(old(board.stickers), blockId) + [NewSticker("sticker-" + Decimal(now), kind, blockId, NoPatch)])
      && (forall k :: k != blockId ==> Dict.Get(board.stickers, k) == Dict.Get(old(board.stickers), k))
      && board.saved == Stored(board.stickers))
  {
    target := TargetBlock(blocks, innerHeight);
    if target.Some? {
      var _ := board.AddStickerToBlock(blocks[target.value].id, kind, NoPatch, now);
    }
  }
}
