/**
 * 22222/stickers.js: the module-level `stickers` object, a list of sticker
 * records per block id, kept under `portfolio_stickers`. A drag ends by
 * writing the sticker's box back into its record; `addStickerToBlock`
 * appends a record with defaults. Element boxes and `Date.now()` are
 * parameters; the DOM itself is left out.
 */
module Stickers22222 {
  import opened Wrappers
  import opened Storage
  import opened Records
  import opened JsText
  import Dict

  datatype Sticker = Sticker(
    id: string, kind: string, x: int, y: int, width: int, height: int,
    content: Option<string>, src: Option<string>)

  /** The `stickers` object: block id to that block's list of records. */
  type Board = Dict.Dict<seq<Sticker>>

  /**
   * The first line of the file: the stored object, or `{}` when nothing is
   * stored; `None` when the stored text does not parse and the script stops.
   */
  function Initial(slot: Slot<Board>): (r: Option<Board>)
    ensures slot.Absent? ==> r == Some(Dict.Empty())
    ensures slot.Stored? ==> r == Some(slot.value)
    ensures slot.Unparseable? ==> r.None?
  {
    ReadOr(slot, Dict.Empty())
  }

  /** `stickers[blockId] || []`. */
  function ListOf(d: Board, blockId: string): seq<Sticker> {
    if blockId in d.values then d.values[blockId] else []
  }

  function StickerId(id: string): Sticker -> bool {
    (s: Sticker) => s.id == id
  }

  /** The fields the `data` argument of `addStickerToBlock` may supply; each one given wins. */
  datatype Patch = Patch(
    id: Option<string>, kind: Option<string>, x: Option<int>, y: Option<int>,
    width: Option<int>, height: Option<int>, content: Option<string>, src: Option<string>)

  const NoPatch: Patch := Patch(None, None, None, None, None, None, None, None)

  function Pick<T>(given: Option<T>, default: T): T {
    if given.Some? then given.value else default
  }

  /** `{ id, type, x: 100, y: 100, width: 200, height: 160, ...data }`. */
  function NewSticker(id: string, kind: string, data: Patch): Sticker {
    Sticker(Pick(data.id, id), Pick(data.kind, kind), Pick(data.x, 100), Pick(data.y, 100),
            Pick(data.width, 200), Pick(data.height, 160), data.content, data.src)
  }

  /** With no data the record is at (100, 100) and 200 by 160. */
  lemma NewStickerDefaults(id: string, kind: string)
    ensures NewSticker(id, kind, NoPatch) == Sticker(id, kind, 100, 100, 200, 160, None, None)
  {
  }

  /** A sticker's box relative to its block, as `saveStickerPosition` measures it. */
  datatype Box = Box(x: int, y: int, width: int, height: int)

  function Placed(s: Sticker, b: Box): Sticker {
    s.(x := b.x, y := b.y, width := b.width, height := b.height)
  }

  class StickerBoard {
    var stickers: Board
    /** `portfolio_stickers` in `localStorage`. */
    var saved: Slot<Board>

    ghost predicate Valid()
      reads this
    {
      Dict.Valid(stickers)
    }

    /** The state once the first line has run, with `initial` what it read. */
    constructor (stored: Slot<Board>, initial: Board)
      requires Initial(stored) == Some(initial)
      requires Dict.Valid(initial)
      ensures Valid() && stickers == initial && saved == stored
    {
      stickers := initial;
      saved := stored;
    }

    /** `saveStickers`. */
    method SaveStickers()
      modifies this`saved
      ensures saved == Stored(stickers)
    {
      saved := Stored(stickers);
    }

    /**
     * `loadStickForBlock(blockId)`: the records rendered into the block's
     * content element, in list order; nothing when the block has no
     * content element or no list.
     */
    method LoadStickForBlock(blockId: string, hasContent: bool) returns (shown: seq<Sticker>)
      ensures shown == if hasContent then ListOf(stickers, blockId) else []
    {
      if !hasContent {
        return [];
      }
      var list := ListOf(stickers, blockId);
      shown := [];
      var i := 0;
      while i < |list|
        invariant 0 <= i <= |list| && shown == list[..i]
      {
        shown := shown + [list[i]];
        i := i + 1;
      }
      assert list[..i] == list;
    }

    /**
     * `addStickerToBlock(blockId, type, data)` with `Date.now()` as `now`:
     * the block's list is created when missing and gets one record; every
     * other block's list is unchanged; the object is saved. Returns what
     * the block then shows.
     */
    method AddStickerToBlock(blockId: string, kind: string, data: Patch, now: nat, hasContent: bool)
      returns (added: Sticker, shown: seq<Sticker>)
      requires Valid()
      modifies this`stickers, this`saved
      ensures Valid()
      ensures added == NewSticker("sticker-" + Decimal(now), kind, data)
      ensures Dict.Get(stickers, blockId) == Some(ListOf(old(stickers), blockId) + [added])
      ensures forall k :: k != blockId ==> Dict.Get(stickers, k) == Dict.Get(old(stickers), k)
      ensures saved == Stored(stickers)
      ensures hasContent ==> shown == ListOf(old(stickers), blockId) + [added]
    {
      if blockId !in stickers.values {
        stickers := Dict.Put(stickers, blockId, []);
      }
      added := NewSticker("sticker-" + Decimal(now), kind, data);
      stickers := Dict.Put(stickers, blockId, stickers.values[blockId] + [added]);
      SaveStickers();
      shown := LoadStickForBlock(blockId, hasContent);
    }

    /**
     * `saveStickerPosition` for sticker `id` inside block `blockId`: the list
     * is created (and not saved) when missing; the first record with that
     * id takes the measured box and the object is saved; with no such record
     * nothing else happens.
     */
    method SaveStickerPosition(blockId: string, id: string, box: Box) returns (found: bool)
      requires Valid()
      modifies this`stickers, this`saved
      ensures Valid()
      ensures found <==> exists s :: s in ListOf(old(stickers), blockId) && s.id == id
      ensures var list := ListOf(old(stickers), blockId);
        var i := FindIndex(list, StickerId(id));
        Dict.Get(stickers, blockId) == Some(if i.Some? then list[i.value := Placed(list[i.value], box)] else list)
      ensures forall k :: k != blockId ==> Dict.Get(stickers, k) == Dict.Get(old(stickers), k)
      ensures found ==> saved == Stored(stickers)
      ensures !found ==> saved == old(saved)
    {
      if blockId !in stickers.values {
        stickers := Dict.Put(stickers, blockId, []);
      }
      var list := stickers.values[blockId];
      var i := FindIndex(list, StickerId(id));
      found := i.Some?;
      if i.None? {
        assert forall s :: s in list ==> s.id != id by {
          forall s | s in list ensures s.id != id {
            var j :| 0 <= j < |list| && list[j] == s;
            assert !StickerId(id)(list[j]);
          }
        }
        return;
      }
      assert StickerId(id)(list[i.value]);
      stickers := Dict.Put(stickers, blockId, list[i.value := Placed(list[i.value], box)]);
      SaveStickers();
    }
  }

  /** After a move only the moved record of that block differs, and only in its box. */
  lemma MoveTouchesOne(list: seq<Sticker>, id: string, box: Box, j: nat)
    requires j < |list|
    ensures var i := FindIndex(list, StickerId(id));
      var r := if i.Some? then list[i.value := Placed(list[i.value], box)] else list;
      |r| == |list| && r[j].id == list[j].id && r[j].kind == list[j].kind && r[j].content == list[j].content
      && (i.None? || j != i.value ==> r[j] == list[j])
      && (i.Some? && j == i.value ==> r[j] == Placed(list[j], box) && list[j].id == id)
  {
  }
}
