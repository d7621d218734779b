/**
 * deepseekooooo/stickers.js, class `StickersManager`: sticker records with
 * position and size, the drag and resize handlers each sticker registers,
 * attachment to the block a sticker overlaps most, deletion, and the
 * `localStorage` entries `stickers`, `sticker_positions` and `sticker_sizes`.
 *
 * Every record ever created stays in `records`, in creation order, which is
 * also the order in which its handlers were registered on `document`
 * (deleting a sticker removes its element but not its handlers);
 * `this.stickers` is `live`, indices into `records`. Pointer positions and
 * element rectangles are parameters.
 */
module DeepseekStickers {
  import opened Wrappers
  import opened Storage
  import opened Geometry
  import opened Records
  import Dict

  /** A number that may be `NaN`; `None` is `NaN`. */
  type Num = Option<real>

  /**
   * A sticker record. `content` is the `innerHTML` of its content area,
   * `None` standing for what `addTextSticker`, `addImageSticker` or
   * `addVideoSticker` build there; `parent` is the `data-block-id` of its
   * parent block.
   */
  datatype Sticker = Sticker(
    id: string, kind: string, x: Num, y: Num, width: real, height: real,
    content: Option<string>, parent: Option<string>, zIndex: string)

  /** What `saveStickers` writes for one sticker; a `NaN` is written as `null`. */
  datatype Saved = Saved(
    id: string, kind: string, x: Num, y: Num, width: Num, height: Num,
    content: Option<string>, parentBlockId: Option<string>)

  /** How a handler ends: normally, or with the `TypeError` of calling an undefined method. */
  datatype Outcome = Done | TypeError

  /** A resize in progress: the sticker and the pointer and size when it began. */
  datatype Resize = Resize(index: nat, startX: real, startY: real, startWidth: real, startHeight: real)

  /** The record `createSticker` builds: 200×160 with its corner at the viewport centre less (100, 80), no parent. */
  function NewSticker(id: string, kind: string, innerWidth: real, innerHeight: real): Sticker {
    Sticker(id, kind, Some(innerWidth / 2.0 - 100.0), Some(innerHeight / 2.0 - 80.0), 200.0, 160.0, None, None, "100")
  }

  /** The overlap a block must exceed before a sticker attaches to it. */
  const AttachFloor: int := 1000

  /**
   * The block `checkBlockAttachment` picks: among the blocks overlapping the
   * sticker by more than 1000, the first of those with the largest overlap.
   */
  function AttachTarget(box: Rect, blocks: seq<Placed>): (r: Option<string>)
    ensures r.Some? <==> exists j :: 0 <= j < |blocks| && Overlap(box, blocks[j].rect) > AttachFloor
    ensures r.Some? ==>
      exists k :: (0 <= k < |blocks| && r.value == blocks[k].id
        && (forall j :: 0 <= j < |blocks| ==> Overlap(box, blocks[j].rect) <= Overlap(box, blocks[k].rect))
        && (forall j :: 0 <= j < k ==> Overlap(box, blocks[j].rect) < Overlap(box, blocks[k].rect)))
  {
    var best := FirstMax(Areas(box, blocks), AttachFloor);
    if best.Some? then Some(blocks[best.value].id) else None
  }

  /**
   * The sticker once `checkBlockAttachment` has run with `target`: a new
   * target becomes the parent with z-index 10, no target clears the parent
   * with z-index 100, and the current parent found again changes nothing.
   * Either way the parent ends up being the target.
   */
  function Attached(s: Sticker, target: Option<string>): (r: Sticker)
    ensures r.parent == target
    ensures target.Some? && target != s.parent ==> r.zIndex == "10"
    ensures target.None? ==> r.zIndex == "100"
    ensures target == s.parent && target.Some? ==> r == s
    ensures r == s.(parent := r.parent, zIndex := r.zIndex)
  {
    if target.Some? && target != s.parent then s.(parent := target, zIndex := "10")
    else if target.None? then s.(parent := None, zIndex := "100")
    else s
  }

  /** Running the check again with the same rectangles changes nothing more. */
  lemma AttachedIdempotent(s: Sticker, target: Option<string>)
    ensures Attached(Attached(s, target), target) == Attached(s, target)
  {
  }

  /**
   * A sticker whose overlaps all stay at 1000 or below is detached even
   * if it still overlaps its parent a little.
   */
  lemma SmallOverlapDetaches(s: Sticker, box: Rect, blocks: seq<Placed>, j: nat)
    requires j < |blocks| && s.parent == Some(blocks[j].id)
    requires 0 < Overlap(box, blocks[j].rect)
    requires forall i :: 0 <= i < |blocks| ==> Overlap(box, blocks[i].rect) <= AttachFloor
    ensures Attached(s, AttachTarget(box, blocks)) == s.(parent := None, zIndex := "100")
  {
  }

  /** `e.clientX > rect.right - 20 && e.clientY > rect.bottom - 20`: the press is in the resize corner. */
  predicate InResizeArea(clientX: real, clientY: real, right: real, bottom: real) {
    clientX > right - 20.0 && clientY > bottom - 20.0
  }

  /** The size while resizing: the start size plus the pointer's travel, at least 100 wide and 80 high. */
  function ResizedSize(r: Resize, clientX: real, clientY: real): (size: (real, real))
    ensures size.0 >= 100.0 && size.1 >= 80.0
    ensures size.0 >= r.startWidth + (clientX - r.startX) && size.1 >= r.startHeight + (clientY - r.startY)
    ensures size.0 == 100.0 || size.0 == r.startWidth + (clientX - r.startX)
    ensures size.1 == 80.0 || size.1 == r.startHeight + (clientY - r.startY)
  {
    var w := r.startWidth + (clientX - r.startX);
    var h := r.startHeight + (clientY - r.startY);
    (if w > 100.0 then w else 100.0, if h > 80.0 then h else 80.0)
  }

  /** `sticker.x = e.clientX - offsetX`: `NaN` when the sticker's offset was never set. */
  function Moved(s: Sticker, offset: Option<(real, real)>, clientX: real, clientY: real): (r: Sticker)
    ensures offset.None? ==> r.x.None? && r.y.None?
    ensures offset.Some? ==> r.x == Some(clientX - offset.value.0) && r.y == Some(clientY - offset.value.1)
    ensures r == s.(x := r.x, y := r.y)
  {
    if offset.Some? then s.(x := Some(clientX - offset.value.0), y := Some(clientY - offset.value.1))
    else s.(x := None, y := None)
  }

  /** What `saveStickers` writes for a record. */
  function SavedOf(s: Sticker): Saved {
    Saved(s.id, s.kind, s.x, s.y, Some(s.width), Some(s.height), s.content, s.parent)
  }

  /** The sticker kinds `loadStickers` recreates. */
  predicate Known(kind: string) { kind == "text" || kind == "image" || kind == "video" }

  /** `a || b` for a stored number: `NaN`, `null` and 0 fall back. */
  function OrNum(n: Num, fallback: real): real { if n.Some? && n.value != 0.0 then n.value else fallback }

  /**
   * The kind of the first entry `loadStickers` recreates as written: the
   * first entry of a known kind, where `createSticker` throws and the load
   * stops.
   */
  function FirstKnown(data: seq<Saved>): (r: Option<string>)
    ensures r.None? <==> forall i :: 0 <= i < |data| ==> !Known(data[i].kind)
    ensures r.Some? ==>
      exists k :: (0 <= k < |data| && data[k].kind == r.value && Known(r.value)
        && forall i :: 0 <= i < k ==> !Known(data[i].kind))
  {
    if data == [] then None
    else if Known(data[0].kind) then Some(data[0].kind)
    else
      var r := FirstKnown(data[1..]);
      assert forall i :: 1 <= i < |data| ==> data[1..][i - 1] == data[i];
      if r.Some? then
        var k :| 0 <= k < |data[1..]| && data[1..][k].kind == r.value && Known(r.value)
          && forall i :: 0 <= i < k ==> !Known(data[1..][i].kind);
        assert data[k + 1].kind == r.value;
        r
      else r
  }

  /**
   * The sticker the loader as intended makes of a saved entry: a new sticker
   * of the entry's kind whose position and size are the saved ones unless
   * those are 0 or missing, whose content is the saved one when there is
   * some, and whose parent is the saved one when that block is on the page.
   */
  function Restored(d: Saved, id: string, innerWidth: real, innerHeight: real, blockIds: set<string>): (r: Sticker)
    requires Known(d.kind)
  {
    var s := NewSticker(id, d.kind, innerWidth, innerHeight);
    var s1 := s.(x := Some(OrNum(d.x, s.x.value)), y := Some(OrNum(d.y, s.y.value)),
                 width := OrNum(d.width, s.width), height := OrNum(d.height, s.height));
    var s2 := if d.content.Some? && d.content.value != "" then s1.(content := d.content) else s1;
    if d.parentBlockId.Some? && d.parentBlockId.value != "" && d.parentBlockId.value in blockIds
    then s2.(parent := d.parentBlockId, zIndex := "10") else s2
  }

  /** What the loader as intended adds for `data`: one restored sticker per entry of a known kind, in order. */
  function RestoredAll(data: seq<Saved>, idOf: nat -> string, base: nat, innerWidth: real, innerHeight: real,
                       blockIds: set<string>): (r: seq<Sticker>)
    ensures |r| <= |data|
    decreases |data|
  {
    if data == [] then []
    else
      var rest := RestoredAll(data[1..], idOf, base + 1, innerWidth, innerHeight, blockIds);
      if Known(data[0].kind) then [Restored(data[0], idOf(base), innerWidth, innerHeight, blockIds)] + rest
      else rest
  }

  /** Restoring an entry one more at the end is restoring the prefix and then that entry. */
  lemma {:induction false} RestoredAllSnoc(data: seq<Saved>, d: Saved, idOf: nat -> string, base: nat,
                                           innerWidth: real, innerHeight: real, blockIds: set<string>)
    ensures RestoredAll(data + [d], idOf, base, innerWidth, innerHeight, blockIds)
      == RestoredAll(data, idOf, base, innerWidth, innerHeight, blockIds)
         + (if Known(d.kind) then [Restored(d, idOf(base + |data|), innerWidth, innerHeight, blockIds)] else [])
    decreases |data|
  {
    if data == [] {
      assert [d][1..] == [];
    } else {
      assert (data + [d])[1..] == data[1..] + [d];
      RestoredAllSnoc(data[1..], d, idOf, base + 1, innerWidth, innerHeight, blockIds);
    }
  }

  /** The indices `base, base + 1, …` shown one more record further. */
  lemma CountUpSnoc(a: seq<nat>, base: nat, n: nat)
    ensures a + seq(n, j => base + j) + [base + n] == a + seq(n + 1, j => base + j)
  {
    assert seq(n, j => base + j) + [base + n] == seq(n + 1, j => base + j);
  }

  /** Indices below `base` followed by `base, …, base + n - 1` are all below `base + n`. */
  lemma CountUpBelow(a: seq<nat>, base: nat, n: nat)
    requires forall j :: 0 <= j < |a| ==> a[j] < base
    ensures var s := a + seq(n, k => base + k); forall j :: 0 <= j < |s| ==> s[j] < base + n
  {
  }

  /** One more record with no drag offset. */
  lemma NoOffsetSnoc(a: seq<Option<(real, real)>>, n: nat)
    ensures a + seq(n, j => None) + [None] == a + seq(n + 1, j => None)
  {
    var nones: seq<Option<(real, real)>> := seq(n + 1, j => None);
    assert seq(n, j => None) + [None] == nones;
  }

  /**
   * The loop of the intended `loadStickers` over the saved entries: each entry
   * of a known kind is restored and pushed, shown at the next record index
   * after `count` existing records, with no drag offset.
   */
  method RestoreEntries(data: seq<Saved>, idOf: nat -> string, innerWidth: real, innerHeight: real, blockIds: set<string>,
                        count: nat, live0: seq<nat>, offsets0: seq<Option<(real, real)>>)
    returns (added: seq<Sticker>, live: seq<nat>, offsets: seq<Option<(real, real)>>)
    ensures added == RestoredAll(data, idOf, 0, innerWidth, innerHeight, blockIds)
    ensures live == live0 + seq(|added|, j => count + j)
    ensures offsets == offsets0 + seq(|added|, j => None)
  {
    added, live, offsets := [], live0, offsets0;
    var i := 0;
    while i < |data|
      invariant 0 <= i <= |data|
      invariant added == RestoredAll(data[..i], idOf, 0, innerWidth, innerHeight, blockIds)
      invariant live == live0 + seq(|added|, j => count + j)
      invariant offsets == offsets0 + seq(|added|, j => None)
    {
      var d := data[i];
      RestoredAllSnoc(data[..i], d, idOf, 0, innerWidth, innerHeight, blockIds);
      assert data[..i + 1] == data[..i] + [d];
      if Known(d.kind) {
        CountUpSnoc(live0, count, |added|);
        NoOffsetSnoc(offsets0, |added|);
        live := live + [count + |added|];
        added := added + [Restored(d, idOf(i), innerWidth, innerHeight, blockIds)];
        offsets := offsets + [None];
      }
      i := i + 1;
    }
    assert data[..i] == data;
  }

  /**
   * What a sticker saved by `saveStickers` comes back as: everything but its
   * id, once its position and size are neither 0 nor `NaN` and its parent
   * block is on the page.
   */
  lemma SaveThenRestore(s: Sticker, id: string, innerWidth: real, innerHeight: real, blockIds: set<string>)
    requires Known(s.kind)
    requires s.x.Some? && s.x.value != 0.0 && s.y.Some? && s.y.value != 0.0 && s.width != 0.0 && s.height != 0.0
    requires s.content.Some? && s.content.value != ""
    requires s.parent.Some? && s.parent.value != "" && s.parent.value in blockIds && s.zIndex == "10"
    ensures Restored(SavedOf(s), id, innerWidth, innerHeight, blockIds) == s.(id := id)
  {
  }

  /** A sticker saved at 0 on either axis comes back at the default position on that axis. */
  lemma ZeroPositionLost(d: Saved, id: string, innerWidth: real, innerHeight: real, blockIds: set<string>)
    requires Known(d.kind) && d.x == Some(0.0)
    ensures Restored(d, id, innerWidth, innerHeight, blockIds).x == Some(innerWidth / 2.0 - 100.0)
  {
  }

  /** The test `s => s.id !== sticker.id` on an index into `records`. */
  function KeepUnless(records: seq<Sticker>, id: string): nat -> bool {
    (i: nat) => i < |records| && records[i].id != id
  }

  class StickersManager {
    var records: seq<Sticker>
    /** `this.stickers`: indices into `records`. */
    var live: seq<nat>
    /** `this.isDragging`, shared by the handlers of every sticker. */
    var isDragging: bool
    /** Each sticker's drag handler's `offsetX`, `offsetY`, unset until it is pressed. */
    var offsets: seq<Option<(real, real)>>
    /** The resize in progress, kept in the handlers of the sticker being resized. */
    var resizing: Option<Resize>
    /** The sticker the corrected drag handlers move. */
    var dragTarget: Option<nat>
    /** The entries `stickers`, `sticker_positions` and `sticker_sizes`. */
    var saved: Slot<seq<Saved>>
    var positions: Slot<Dict.Dict<(Num, Num)>>
    var sizes: Slot<Dict.Dict<(real, real)>>

    predicate Valid()
      reads this
    {
      |offsets| == |records|
      && (forall j :: 0 <= j < |live| ==> live[j] < |records|)
      && (resizing.Some? ==> resizing.value.index < |records|)
      && (dragTarget.Some? ==> dragTarget.value < |records|)
      && (positions.Stored? ==> Dict.Valid(positions.value))
      && (sizes.Stored? ==> Dict.Valid(sizes.value))
    }

    /** The manager before `loadStickers` runs: no stickers, nothing in progress. */
    constructor (saved: Slot<seq<Saved>>, positions: Slot<Dict.Dict<(Num, Num)>>, sizes: Slot<Dict.Dict<(real, real)>>)
      requires positions.Stored? ==> Dict.Valid(positions.value)
      requires sizes.Stored? ==> Dict.Valid(sizes.value)
      ensures Valid()
      ensures records == [] && live == [] && offsets == [] && !isDragging && resizing.None? && dragTarget.None?
      ensures this.saved == saved && this.positions == positions && this.sizes == sizes
    {
      records, live, offsets := [], [], [];
      isDragging := false;
      resizing, dragTarget := None, None;
      this.saved, this.positions, this.sizes := saved, positions, sizes;
    }

    /**
     * `createSticker` as written: the record is added to the page and to
     * `this.stickers` with an empty content area, and then the call to the
     * undefined `this.findParentBlock` throws, so the caller never fills
     * the content area in.
     */
    method CreateSticker(kind: string, id: string, innerWidth: real, innerHeight: real) returns (outcome: Outcome)
      requires Valid()
      modifies this`records, this`live, this`offsets
      ensures Valid()
      ensures outcome == TypeError
      ensures records == old(records) + [NewSticker(id, kind, innerWidth, innerHeight).(content := Some(""))]
      ensures live == old(live) + [|old(records)|] && offsets == old(offsets) + [None]
    {
      live := live + [|records|];
      records := records + [NewSticker(id, kind, innerWidth, innerHeight).(content := Some(""))];
      offsets := offsets + [None];
      outcome := TypeError;
    }

    /**
     * `createSticker` without the call to the missing method: the sticker
     * starts without a parent, gets its content from the caller, and is
     * attached when it is first dragged.
     */
    method CreateStickerAsIntended(kind: string, id: string, innerWidth: real, innerHeight: real)
      requires Valid()
      modifies this`records, this`live, this`offsets
      ensures Valid()
      ensures records == old(records) + [NewSticker(id, kind, innerWidth, innerHeight)]
      ensures live == old(live) + [|old(records)|] && offsets == old(offsets) + [None]
    {
      live := live + [|records|];
      records := records + [NewSticker(id, kind, innerWidth, innerHeight)];
      offsets := offsets + [None];
    }

    /** `checkBlockAttachment` for record `k`, whose element covers `box`: the running maximum over the blocks. */
    method CheckBlockAttachment(k: nat, box: Rect, blocks: seq<Placed>)
      requires Valid() && k < |records|
      modifies this`records
      ensures Valid()
      ensures records == old(records)[k := Attached(old(records)[k], AttachTarget(box, blocks))]
    {
      var areas := Areas(box, blocks);
      var best, maxOverlap := ScanMax(areas, AttachFloor);
      var s := records[k];
      if best.Some? && Some(blocks[best.value].id) != s.parent {
        records := records[k := s.(parent := Some(blocks[best.value].id), zIndex := "10")];
      } else if maxOverlap == AttachFloor {
        records := records[k := s.(parent := None, zIndex := "100")];
      }
    }

    /**
     * The drag handlers' `mousedown` on live record `k` at `(clientX, clientY)`
     * over an element whose corner is at `(left, top)`: outside edit mode or
     * on the delete button nothing happens; otherwise the shared flag is set
     * and this sticker's offset is taken.
     */
    method DragMouseDown(k: nat, clientX: real, clientY: real, left: real, top: real, onDeleteButton: bool, isEditMode: bool)
      requires Valid() && k < |records|
      modifies this`isDragging, this`offsets
      ensures Valid()
      ensures !isEditMode || onDeleteButton ==> isDragging == old(isDragging) && offsets == old(offsets)
      ensures isEditMode && !onDeleteButton ==> isDragging && offsets == old(offsets)[k := Some((clientX - left, clientY - top))]
    {
      if !isEditMode || onDeleteButton {
        return;
      }
      isDragging := true;
      offsets := offsets[k := Some((clientX - left, clientY - top))];
    }

    /**
     * `mousemove` as written: the handler of every sticker ever created runs,
     * and since they all test the shared flag, while any sticker is dragged
     * each of them moves its own sticker by its own offset and checks its
     * attachment, with `rects[i]` the rectangle of record `i` once moved.
     */
    method DragMouseMove(clientX: real, clientY: real, rects: seq<Rect>, blocks: seq<Placed>)
      requires Valid() && |rects| == |records|
      modifies this`records
      ensures Valid()
      ensures !isDragging ==> records == old(records)
      ensures isDragging ==>
        |records| == |old(records)|
        && forall i :: 0 <= i < |records| ==>
             records[i] == Attached(Moved(old(records)[i], offsets[i], clientX, clientY), AttachTarget(rects[i], blocks))
    {
      if !isDragging {
        return;
      }
      var i := 0;
      while i < |records|
        invariant 0 <= i <= |records| == |old(records)| && Valid()
        invariant forall j :: 0 <= j < i ==>
          records[j] == Attached(Moved(old(records)[j], offsets[j], clientX, clientY), AttachTarget(rects[j], blocks))
        invariant forall j :: i <= j < |records| ==> records[j] == old(records)[j]
      {
        records := records[i := Moved(records[i], offsets[i], clientX, clientY)];
        CheckBlockAttachment(i, rects[i], blocks);
        i := i + 1;
      }
    }

    /**
     * `saveStickerPosition` for record `k`: its position goes under its id in
     * `sticker_positions`; an entry `JSON.parse` rejects makes the call throw
     * before anything is written.
     */
    method SaveStickerPosition(k: nat)
      requires Valid() && k < |records|
      modifies this`positions
      ensures Valid()
      ensures var d := ReadOr(old(positions), Dict.Empty());
        positions == if d.None? then old(positions) else Stored(Dict.Put(d.value, records[k].id, (records[k].x, records[k].y)))
    {
      var d := ReadOr(positions, Dict.Empty());
      if d.Some? {
        positions := Stored(Dict.Put(d.value, records[k].id, (records[k].x, records[k].y)));
      }
    }

    /** `saveStickerSize` for record `k`, into `sticker_sizes` in the same way. */
    method SaveStickerSize(k: nat)
      requires Valid() && k < |records|
      modifies this`sizes
      ensures Valid()
      ensures var d := ReadOr(old(sizes), Dict.Empty());
        sizes == if d.None? then old(sizes) else Stored(Dict.Put(d.value, records[k].id, (records[k].width, records[k].height)))
    {
      var d := ReadOr(sizes, Dict.Empty());
      if d.Some? {
        sizes := Stored(Dict.Put(d.value, records[k].id, (records[k].width, records[k].height)));
      }
    }

    /**
     * `mouseup` as written: the handlers run in the order they were
     * registered, the first one clears the shared flag and saves the
     * position of its own sticker, the first one ever created, and the
     * others then see the flag cleared.
     */
    method DragMouseUp()
      requires Valid()
      modifies this`isDragging, this`positions
      ensures Valid()
      ensures !isDragging
      ensures old(isDragging) && |records| > 0 ==>
        var d := ReadOr(old(positions), Dict.Empty());
        positions == if d.None? then old(positions) else Stored(Dict.Put(d.value, records[0].id, (records[0].x, records[0].y)))
      ensures !(old(isDragging) && |records| > 0) ==> positions == old(positions)
    {
      if isDragging && |records| > 0 {
        isDragging := false;
        SaveStickerPosition(0);
      } else {
        isDragging := false;
      }
    }

    /** The corrected `mousedown`: only the pressed sticker is marked as dragged. */
    method DragMouseDownAsIntended(k: nat, clientX: real, clientY: real, left: real, top: real, onDeleteButton: bool, isEditMode: bool)
      requires Valid() && k < |records|
      modifies this`dragTarget, this`offsets
      ensures Valid()
      ensures !isEditMode || onDeleteButton ==> dragTarget == old(dragTarget) && offsets == old(offsets)
      ensures isEditMode && !onDeleteButton ==> dragTarget == Some(k) && offsets == old(offsets)[k := Some((clientX - left, clientY - top))]
    {
      if !isEditMode || onDeleteButton {
        return;
      }
      dragTarget := Some(k);
      offsets := offsets[k := Some((clientX - left, clientY - top))];
    }

    /** The corrected `mousemove`: only the dragged sticker moves and is checked for attachment. */
    method DragMouseMoveAsIntended(clientX: real, clientY: real, box: Rect, blocks: seq<Placed>)
      requires Valid()
      modifies this`records
      ensures Valid()
      ensures dragTarget.None? ==> records == old(records)
      ensures dragTarget.Some? ==>
        var k := dragTarget.value;
        records == old(records)[k := Attached(Moved(old(records)[k], offsets[k], clientX, clientY), AttachTarget(box, blocks))]
    {
      if dragTarget.None? {
        return;
      }
      var k := dragTarget.value;
      records := records[k := Moved(records[k], offsets[k], clientX, clientY)];
      CheckBlockAttachment(k, box, blocks);
    }

    /** The corrected `mouseup`: the dragged sticker's own position is saved. */
    method DragMouseUpAsIntended()
      requires Valid()
      modifies this`dragTarget, this`positions
      ensures Valid()
      ensures dragTarget.None?
      ensures old(dragTarget).Some? ==>
        var k := old(dragTarget).value;
        var d := ReadOr(old(positions), Dict.Empty());
        positions == if d.None? then old(positions) else Stored(Dict.Put(d.value, records[k].id, (records[k].x, records[k].y)))
      ensures old(dragTarget).None? ==> positions == old(positions)
    {
      if dragTarget.Some? {
        var k := dragTarget.value;
        dragTarget := None;
        SaveStickerPosition(k);
      }
    }

    /**
     * The resize handlers' `mousedown` on record `k` whose element's
     * bottom-right corner is at `(right, bottom)`: in edit mode, a press
     * strictly within 20 px of that corner starts a resize from the current
     * size.
     */
    method ResizeMouseDown(k: nat, clientX: real, clientY: real, right: real, bottom: real, isEditMode: bool)
      requires Valid() && k < |records|
      modifies this`resizing
      ensures Valid()
      ensures isEditMode && InResizeArea(clientX, clientY, right, bottom) ==>
        resizing == Some(Resize(k, clientX, clientY, records[k].width, records[k].height))
      ensures !(isEditMode && InResizeArea(clientX, clientY, right, bottom)) ==> resizing == old(resizing)
    {
      if !isEditMode {
        return;
      }
      if InResizeArea(clientX, clientY, right, bottom) {
        resizing := Some(Resize(k, clientX, clientY, records[k].width, records[k].height));
      }
    }

    /** `mousemove` while resizing: the sticker takes the floored size; nothing else changes. */
    method ResizeMouseMove(clientX: real, clientY: real)
      requires Valid()
      modifies this`records
      ensures Valid()
      ensures resizing.None? ==> records == old(records)
      ensures resizing.Some? ==>
        var k := resizing.value.index;
        var size := ResizedSize(resizing.value, clientX, clientY);
        records == old(records)[k := old(records)[k].(width := size.0, height := size.1)]
    {
      if resizing.None? {
        return;
      }
      var k := resizing.value.index;
      var size := ResizedSize(resizing.value, clientX, clientY);
      records := records[k := records[k].(width := size.0, height := size.1)];
    }

    /** `mouseup` after a resize: the resize ends and the sticker's size is saved. */
    method ResizeMouseUp()
      requires Valid()
      modifies this`resizing, this`sizes
      ensures Valid()
      ensures resizing.None?
      ensures old(resizing).Some? ==>
        var k := old(resizing).value.index;
        var d := ReadOr(old(sizes), Dict.Empty());
        sizes == if d.None? then old(sizes) else Stored(Dict.Put(d.value, records[k].id, (records[k].width, records[k].height)))
      ensures old(resizing).None? ==> sizes == old(sizes)
    {
      if resizing.Some? {
        var k := resizing.value.index;
        resizing := None;
        SaveStickerSize(k);
      }
    }

    /** `saveStickers`: every live sticker, in order. */
    method SaveStickers()
      requires Valid()
      modifies this`saved
      ensures Valid()
      ensures saved.Stored? && |saved.value| == |live|
      ensures forall j :: 0 <= j < |live| ==> saved.value[j] == SavedOf(records[live[j]])
    {
      var rs, l := records, live;
      saved := Stored(seq(|l|, j requires 0 <= j < |l| && l[j] < |rs| => SavedOf(rs[l[j]])));
    }

    /**
     * `deleteSticker` once the user confirms: every live sticker with that
     * id leaves `this.stickers`, the others stay in order, and the list is
     * saved.
     */
    method DeleteSticker(id: string, confirmed: bool)
      requires Valid()
      modifies this`live, this`saved
      ensures Valid()
      ensures !confirmed ==> live == old(live) && saved == old(saved)
      ensures confirmed ==> live == Filter(old(live), KeepUnless(records, id))
      ensures confirmed ==> forall j :: 0 <= j < |live| ==> records[live[j]].id != id
      ensures confirmed ==> (saved.Stored? && |saved.value| == |live|
        && forall j :: 0 <= j < |live| ==> saved.value[j] == SavedOf(records[live[j]]))
    {
      if !confirmed {
        return;
      }
      live := Filter(live, KeepUnless(records, id));
      SaveStickers();
    }

    /**
     * `loadStickers` as written: entries of unknown kinds are skipped, and
     * the first entry of a known kind creates a sticker with the defaults,
     * whose `createSticker` throws; the `catch` ends the load there. So at
     * most one sticker comes back, and nothing saved is restored into it.
     */
    method LoadStickers(idOf: nat -> string, innerWidth: real, innerHeight: real) returns (outcome: Outcome)
      requires Valid()
      modifies this`records, this`live, this`offsets
      ensures Valid()
      ensures var k := if saved.Stored? then FirstKnown(saved.value) else None;
        (k.None? ==> records == old(records) && live == old(live) && outcome == Done)
        && (k.Some? ==> records == old(records) + [NewSticker(idOf(0), k.value, innerWidth, innerHeight).(content := Some(""))]
                        && live == old(live) + [|old(records)|] && outcome == TypeError)
    {
      outcome := Done;
      if !saved.Stored? {
        return;
      }
      var data := saved.value;
      var i := 0;
      while i < |data|
        invariant 0 <= i <= |data|
        invariant forall j :: 0 <= j < i ==> !Known(data[j].kind)
        invariant records == old(records) && live == old(live) && offsets == old(offsets)
      {
        if Known(data[i].kind) {
          outcome := CreateSticker(data[i].kind, idOf(0), innerWidth, innerHeight);
          assert FirstKnown(data) == Some(data[i].kind) by {
            FirstKnownAt(data, i);
          }
          return;
        }
        i := i + 1;
      }
    }

    /**
     * The loader as evidently intended: every entry of a known kind becomes
     * a sticker with its saved position, size, content and parent restored.
     */
    method LoadStickersAsIntended(idOf: nat -> string, innerWidth: real, innerHeight: real, blockIds: set<string>)
      requires Valid()
      modifies this`records, this`live, this`offsets
      ensures Valid()
      ensures saved.Stored? ==> records == old(records) + RestoredAll(saved.value, idOf, 0, innerWidth, innerHeight, blockIds)
      ensures !saved.Stored? ==> records == old(records)
      ensures live == old(live) + seq(|records| - |old(records)|, j => |old(records)| + j)
      ensures offsets == old(offsets) + seq(|records| - |old(records)|, j => None)
    {
      if !saved.Stored? {
        return;
      }
      var added, lv, offs := RestoreEntries(saved.value, idOf, innerWidth, innerHeight, blockIds, |records|, live, offsets);
      CountUpBelow(live, |records|, |added|);
      records, live, offsets := records + added, lv, offs;
    }
  }

  /** The first entry of a known kind, with none before it, is the one `FirstKnown` names. */
  lemma {:induction false} FirstKnownAt(data: seq<Saved>, i: nat)
    requires i < |data| && Known(data[i].kind)
    requires forall j :: 0 <= j < i ==> !Known(data[j].kind)
    ensures FirstKnown(data) == Some(data[i].kind)
  {
    if i > 0 {
      assert forall j :: 0 <= j < i - 1 ==> data[1..][j] == data[j + 1];
      FirstKnownAt(data[1..], i - 1);
    }
  }

  /**
   * Loading as written brings back a single default sticker from a list
   * that holds two text stickers, whatever their saved positions.
   */
  lemma TwoSavedOneLoaded(a: Saved, b: Saved)
    requires a.kind == "text" && b.kind == "text"
    ensures FirstKnown([a, b]) == Some("text")
    ensures |RestoredAll([a, b], (n: nat) => "", 0, 0.0, 0.0, {})| == 2
  {
  }
}
