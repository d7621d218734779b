/**
 * myonly79/stickers.js, `StickersManager`: creating, dragging, attaching,
 * deleting and editing sticker records in `AppState.stickers`. The copies of
 * `createSticker`, `detectBlockCollision` and `deleteSticker` in
 * myonly79/script.js do the same to the records and are modelled here too.
 */
module Myonly79Stickers {
  import opened Wrappers
  import opened Storage
  import opened Geometry
  import opened Records
  import opened Myonly79State

  /** The record `createSticker` builds. */
  function NewSticker(id: string, kind: string): Sticker {
    Sticker(id, kind, "", 100, 100, 300, 200, None, 1000, None, map[])
  }

  /**
   * `createSticker(type)`, with the generated id as a parameter: outside edit
   * mode nothing happens; otherwise one new record is appended and saved.
   */
  method CreateSticker(app: App, kind: string, id: string) returns (created: Option<Sticker>)
    modifies app`stickers, app`saved
    ensures !app.isEditMode ==> created.None? && app.stickers == old(app.stickers) && app.saved == old(app.saved)
    ensures app.isEditMode ==>
      created == Some(NewSticker(id, kind))
      && app.stickers == old(app.stickers) + [NewSticker(id, kind)]
      && app.saved == old(app.saved).(blocks := Stored(app.blocks), stickers := Stored(app.stickers))
  {
    if !app.isEditMode {
      return None;
    }
    var st := NewSticker(id, kind);
    app.stickers := app.stickers + [st];
    SaveData(app);
    created := Some(st);
  }

  /** What `startDrag` records for the rest of the drag. */
  datatype Drag = Drag(startX: int, startY: int, initialX: int, initialY: int)

  /** `Math.max(0, Math.min(limit, v))`. */
  function Clamp(v: int, limit: int): (r: int)
    ensures r >= 0
    ensures limit >= 0 ==> r <= limit
    ensures 0 <= v <= limit ==> r == v
    ensures v < 0 || limit < 0 ==> r == 0
    ensures 0 <= limit < v ==> r == limit
  {
    Max(0, Min(limit, v))
  }

  /**
   * `startDrag`: ignored outside edit mode and on the delete button or on
   * text being edited; otherwise the sticker is lifted to z-index 9999 and
   * the pointer and the sticker's position are recorded.
   */
  method StartDrag(app: App, id: string, clientX: int, clientY: int, onDeleteButton: bool, onEditedText: bool)
    returns (drag: Option<Drag>)
    modifies app`stickers
    ensures var i := FindIndex(old(app.stickers), StickerId(id));
      if !app.isEditMode || onDeleteButton || onEditedText || i.None? then
        drag.None? && app.stickers == old(app.stickers)
      else
        var s := old(app.stickers)[i.value];
        drag == Some(Drag(clientX, clientY, s.x, s.y)) && app.stickers == old(app.stickers)[i.value := s.(zIndex := 9999)]
  {
    var i := FindIndex(app.stickers, StickerId(id));
    if !app.isEditMode || onDeleteButton || onEditedText || i.None? {
      return None;
    }
    var s := app.stickers[i.value];
    drag := Some(Drag(clientX, clientY, s.x, s.y));
    app.stickers := app.stickers[i.value := s.(zIndex := 9999)];
  }

  /** The sticker moved by the pointer delta, kept inside the window. */
  function Moved(s: Sticker, d: Drag, clientX: int, clientY: int, innerWidth: int, innerHeight: int): Sticker {
    s.(x := Clamp(d.initialX + (clientX - d.startX), innerWidth - s.width),
       y := Clamp(d.initialY + (clientY - d.startY), innerHeight - s.height))
  }

  /**
   * `doDrag`: moves the sticker within the window, then attaches it by
   * `detectBlockCollision`; `box` is the sticker's bounding box after the
   * move and `blocks` the `.content-block` boxes, both as the browser
   * reports them.
   */
  method DoDrag(app: App, id: string, d: Drag, clientX: int, clientY: int, innerWidth: int, innerHeight: int,
                box: Rect, blocks: seq<Placed>)
    modifies app`stickers
    ensures var i := FindIndex(old(app.stickers), StickerId(id));
      if i.None? then app.stickers == old(app.stickers)
      else app.stickers == old(app.stickers)[i.value :=
        Moved(old(app.stickers)[i.value], d, clientX, clientY, innerWidth, innerHeight).(parentBlockId := CollisionParent(box, blocks))]
  {
    var i := FindIndex(app.stickers, StickerId(id));
    if i.None? {
      return;
    }
    app.stickers := app.stickers[i.value := Moved(app.stickers[i.value], d, clientX, clientY, innerWidth, innerHeight)];
    DetectBlockCollision(app, i.value, box, blocks);
  }

  /** `stopDrag`: the sticker goes back to z-index 1000 and everything is saved. */
  method StopDrag(app: App, id: string)
    modifies app`stickers, app`saved
    ensures app.stickers == UpdateFirst(old(app.stickers), StickerId(id), (s: Sticker) => s.(zIndex := 1000))
    ensures app.saved == old(app.saved).(blocks := Stored(app.blocks), stickers := Stored(app.stickers))
  {
    app.stickers := UpdateFirst(app.stickers, StickerId(id), (s: Sticker) => s.(zIndex := 1000));
    SaveData(app);
  }

  /**
   * The block a sticker with bounding box `box` is attached to: the first of
   * the blocks with the largest overlap, when that overlap exceeds 1000
   * square pixels; none otherwise.
   */
  function CollisionParent(box: Rect, blocks: seq<Placed>): (r: Option<string>)
    ensures r.None? <==> forall j :: 0 <= j < |blocks| ==> Overlap(box, blocks[j].rect) <= 1000
    ensures r.Some? ==> exists k :: 0 <= k < |blocks| && r.value == blocks[k].id
                                    && Overlap(box, blocks[k].rect) > 1000
                                    && (forall j :: 0 <= j < |blocks| ==> Overlap(box, blocks[j].rect) <= Overlap(box, blocks[k].rect))
                                    && (forall j :: 0 <= j < k ==> Overlap(box, blocks[j].rect) < Overlap(box, blocks[k].rect))
  {
    var best := FirstMax(Areas(box, blocks), 1000);
    if best.Some? then Some(blocks[best.value].id) else None
  }

  /**
   * `detectBlockCollision`: the scan keeps the strictly largest overlap from
   * 0 up, and only then compares it with 1000; the sticker's parent becomes
   * `CollisionParent`.
   */
  method DetectBlockCollision(app: App, i: nat, box: Rect, blocks: seq<Placed>)
    requires i < |app.stickers|
    modifies app`stickers
    ensures app.stickers == old(app.stickers)[i := old(app.stickers)[i].(parentBlockId := CollisionParent(box, blocks))]
  {
    var areas := Areas(box, blocks);
    var best, maxOverlap := ScanMax(areas, 0);
    ThresholdAfterScan(areas, 0, 1000);
    var parent: Option<string> := None;
    if maxOverlap > 1000 {
      parent := Some(blocks[best.value].id);
    }
    app.stickers := app.stickers[i := app.stickers[i].(parentBlockId := parent)];
  }

  /** Scanning by the script's rule and by `CollisionParent` agree on every layout. */
  lemma CollisionParentThreshold(box: Rect, blocks: seq<Placed>)
    ensures var areas := Areas(box, blocks);
      var best := FirstMax(areas, 0);
      CollisionParent(box, blocks) == if best.Some? && areas[best.value] > 1000 then Some(blocks[best.value].id) else None
  {
    ThresholdAfterScan(Areas(box, blocks), 0, 1000);
  }

  /** `performDeleteSticker`: the first record with that id goes, and everything is saved. */
  method PerformDeleteSticker(app: App, id: string)
    modifies app`stickers, app`saved
    ensures app.stickers == RemoveFirst(old(app.stickers), StickerId(id))
    ensures app.saved == old(app.saved).(blocks := Stored(app.blocks), stickers := Stored(app.stickers))
  {
    app.stickers := RemoveFirst(app.stickers, StickerId(id));
    SaveData(app);
  }

  /**
   * `deleteSticker`: outside edit mode nothing happens; otherwise the sticker
   * is deleted when the user confirms.
   */
  method DeleteSticker(app: App, id: string, confirmed: bool)
    modifies app`stickers, app`saved
    ensures !app.isEditMode || !confirmed ==> app.stickers == old(app.stickers) && app.saved == old(app.saved)
    ensures app.isEditMode && confirmed ==>
      app.stickers == RemoveFirst(old(app.stickers), StickerId(id))
      && app.saved == old(app.saved).(blocks := Stored(app.blocks), stickers := Stored(app.stickers))
  {
    if app.isEditMode && confirmed {
      PerformDeleteSticker(app, id);
    }
  }

  /** No two stickers share an id, as the timestamped ids make it. */
  predicate UniqueIds(stickers: seq<Sticker>) {
    Distinct(Keys(stickers, (s: Sticker) => s.id))
  }

  /**
   * With unique ids, deleting removes exactly the sticker with that id:
   * every other sticker stays, in order.
   */
  lemma DeleteRemovesExactly(stickers: seq<Sticker>, id: string)
    requires UniqueIds(stickers)
    ensures RemoveFirst(stickers, StickerId(id)) == Filter(stickers, (s: Sticker) => s.id != id)
    ensures forall k :: 0 <= k < |RemoveFirst(stickers, StickerId(id))| ==> RemoveFirst(stickers, StickerId(id))[k].id != id
  {
    var ks := Keys(stickers, (s: Sticker) => s.id);
    assert AtMostOne(stickers, StickerId(id)) by {
      forall i, j | 0 <= i < j < |stickers| && StickerId(id)(stickers[i]) ensures !StickerId(id)(stickers[j]) {
        assert ks[i] != ks[j];
      }
    }
    RemoveOnlyMatch(stickers, StickerId(id), (s: Sticker) => s.id != id);
  }

  /**
   * The shape of `addLinkToSticker`, `removeLinkFromSticker`,
   * `updateStickerData`, `resizeSticker` and `updateStickerPosition`: when a
   * record has the id, change it, save and answer true; otherwise answer false
   * and change nothing.
   */
  method UpdateSticker(app: App, id: string, f: Sticker -> Sticker) returns (found: bool)
    modifies app`stickers, app`saved
    ensures found <==> FindIndex(old(app.stickers), StickerId(id)).Some?
    ensures app.stickers == UpdateFirst(old(app.stickers), StickerId(id), f)
    ensures found ==> app.saved == old(app.saved).(blocks := Stored(app.blocks), stickers := Stored(app.stickers))
    ensures !found ==> app.saved == old(app.saved)
  {
    var i := FindIndex(app.stickers, StickerId(id));
    if i.None? {
      return false;
    }
    app.stickers := app.stickers[i.value := f(app.stickers[i.value])];
    SaveData(app);
    found := true;
  }

  /** `addLinkToSticker(id, url)`. */
  method AddLinkToSticker(app: App, id: string, url: string) returns (found: bool)
    modifies app`stickers, app`saved
    ensures found <==> FindIndex(old(app.stickers), StickerId(id)).Some?
    ensures app.stickers == UpdateFirst(old(app.stickers), StickerId(id), (s: Sticker) => s.(link := Some(url)))
    ensures found ==> app.saved == old(app.saved).(blocks := Stored(app.blocks), stickers := Stored(app.stickers))
    ensures !found ==> app.saved == old(app.saved)
  {
    found := UpdateSticker(app, id, (s: Sticker) => s.(link := Some(url)));
  }

  /** `removeLinkFromSticker(id)`. */
  method RemoveLinkFromSticker(app: App, id: string) returns (found: bool)
    modifies app`stickers, app`saved
    ensures found <==> FindIndex(old(app.stickers), StickerId(id)).Some?
    ensures app.stickers == UpdateFirst(old(app.stickers), StickerId(id), (s: Sticker) => s.(link := None))
    ensures found ==> app.saved == old(app.saved).(blocks := Stored(app.blocks), stickers := Stored(app.stickers))
    ensures !found ==> app.saved == old(app.saved)
  {
    found := UpdateSticker(app, id, (s: Sticker) => s.(link := None));
  }

  /**
   * The fields an `updates` object passed to `updateStickerData` may carry.
   * `Object.assign` would also copy `id`, `x`, `y`, `width` or `height`, but
   * no caller in these files passes them this way; position and size go
   * through `updateStickerPosition` and `resizeSticker`.
   */
  datatype StickerPatch = StickerPatch(
    kind: Option<string>, content: Option<string>,
    parentBlockId: Option<Option<string>>, zIndex: Option<int>,
    link: Option<Option<string>>, styles: Option<map<string, string>>)

  /** `Object.assign(sticker, updates)`: each field the patch carries replaces the sticker's. */
  function Assign(s: Sticker, p: StickerPatch): (r: Sticker)
    ensures r.id == s.id && r.x == s.x && r.y == s.y && r.width == s.width && r.height == s.height
    ensures r.kind == (if p.kind.Some? then p.kind.value else s.kind)
    ensures r.content == (if p.content.Some? then p.content.value else s.content)
    ensures r.parentBlockId == (if p.parentBlockId.Some? then p.parentBlockId.value else s.parentBlockId)
    ensures r.zIndex == (if p.zIndex.Some? then p.zIndex.value else s.zIndex)
    ensures r.link == (if p.link.Some? then p.link.value else s.link)
    ensures r.styles == (if p.styles.Some? then p.styles.value else s.styles)
  {
    var s1 := if p.kind.Some? then s.(kind := p.kind.value) else s;
    var s2 := if p.content.Some? then s1.(content := p.content.value) else s1;
    var s3 := if p.parentBlockId.Some? then s2.(parentBlockId := p.parentBlockId.value) else s2;
    var s4 := if p.zIndex.Some? then s3.(zIndex := p.zIndex.value) else s3;
    var s5 := if p.link.Some? then s4.(link := p.link.value) else s4;
    if p.styles.Some? then s5.(styles := p.styles.value) else s5
  }

  /** An empty patch changes nothing, and applying a patch twice is applying it once. */
  lemma AssignIdempotent(s: Sticker, p: StickerPatch)
    ensures Assign(s, StickerPatch(None, None, None, None, None, None)) == s
    ensures Assign(Assign(s, p), p) == Assign(s, p)
  {
  }

  /** `updateStickerData(id, updates)`. */
  method UpdateStickerData(app: App, id: string, p: StickerPatch) returns (found: bool)
    modifies app`stickers, app`saved
    ensures found <==> FindIndex(old(app.stickers), StickerId(id)).Some?
    ensures app.stickers == UpdateFirst(old(app.stickers), StickerId(id), (s: Sticker) => Assign(s, p))
    ensures found ==> app.saved == old(app.saved).(blocks := Stored(app.blocks), stickers := Stored(app.stickers))
    ensures !found ==> app.saved == old(app.saved)
  {
    found := UpdateSticker(app, id, (s: Sticker) => Assign(s, p));
  }

  /** `resizeSticker(id, width, height)`: no minimum size is applied. */
  method ResizeSticker(app: App, id: string, width: int, height: int) returns (found: bool)
    modifies app`stickers, app`saved
    ensures found <==> FindIndex(old(app.stickers), StickerId(id)).Some?
    ensures app.stickers == UpdateFirst(old(app.stickers), StickerId(id), (s: Sticker) => s.(width := width, height := height))
    ensures found ==> app.saved == old(app.saved).(blocks := Stored(app.blocks), stickers := Stored(app.stickers))
    ensures !found ==> app.saved == old(app.saved)
  {
    found := UpdateSticker(app, id, (s: Sticker) => s.(width := width, height := height));
  }

  /** `updateStickerPosition(id, x, y)`. */
  method UpdateStickerPosition(app: App, id: string, x: int, y: int) returns (found: bool)
    modifies app`stickers, app`saved
    ensures found <==> FindIndex(old(app.stickers), StickerId(id)).Some?
    ensures app.stickers == UpdateFirst(old(app.stickers), StickerId(id), (s: Sticker) => s.(x := x, y := y))
    ensures found ==> app.saved == old(app.saved).(blocks := Stored(app.blocks), stickers := Stored(app.stickers))
    ensures !found ==> app.saved == old(app.saved)
  {
    found := UpdateSticker(app, id, (s: Sticker) => s.(x := x, y := y));
  }

  /** `getStickersByBlockId(blockId)`: the stickers attached to that block, in list order. */
  function StickersByBlockId(app: App, blockId: Option<string>): (r: seq<Sticker>)
    reads app
    ensures forall k :: 0 <= k < |r| ==> r[k] in app.stickers && r[k].parentBlockId == blockId
    ensures forall k :: 0 <= k < |app.stickers| && app.stickers[k].parentBlockId == blockId ==> app.stickers[k] in r
    ensures forall x :: multiset(r)[x] == if x.parentBlockId == blockId then multiset(app.stickers)[x] else 0
    ensures exists idx :: PicksInOrder(r, app.stickers, idx)
  {
    var p := (s: Sticker) => s.parentBlockId == blockId;
    FilterCounts(app.stickers, p);
    FilterInOrder(app.stickers, p);
    Filter(app.stickers, p)
  }
}
