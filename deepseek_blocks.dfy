/**
 * deepseekooooo/blocks.js, class `BlocksManager`: the `blocks` array read
 * back from the page's `.content-block` elements, the colour palette, the
 * insertion point of the side panel's drag and drop, the content order
 * after a drop, adding and deleting blocks, the resize handle, and the
 * entries `block_heights`, `deleted_blocks` and `block_order`. Element measurements and `Date.now()` are parameters.
 */
module DeepseekBlocks {
  import opened Wrappers
  import opened Storage
  import opened Records
  import opened JsText
  import Dict

  /**
   * A `.content-block` element: its `data-block-id`, the title
   * `getBlockTitle` reads from it, the background of its colour indicator,
   * and its `style.height`.
   */
  datatype El = El(blockId: Option<string>, title: string, indicator: Option<string>, height: Option<int>)

  /** An entry of `this.blocks`. */
  datatype Block = Block(id: string, title: string, color: string)

  /** A truthy string: present and not empty. */
  predicate Truthy(s: Option<string>) { s.Some? && s.value != "" }

  const Palette: seq<string> := ["#E8B4B8", "#A5C9CA", "#B5D5C5", "#F7DCB9", "#D0B8D8", "#F3B7A0", "#B8E1DD", "#8BA6B1"]

  /** `getRandomColor`, which is not random: the palette entry for the current number of blocks. */
  function RandomColor(count: nat): (c: string)
    ensures c in Palette
  {
    Palette[count % |Palette|]
  }

  /** The colours repeat every eight blocks. */
  lemma RandomColorCycles(count: nat)
    ensures RandomColor(count + 8) == RandomColor(count)
  {
  }

  /** Two blocks added one after the other get different colours. */
  lemma {:induction false} RandomColorChanges(count: nat)
    ensures RandomColor(count + 1) != RandomColor(count)
  {
    var i := count % 8;
    assert (count + 1) % 8 == if i == 7 then 0 else i + 1;
  }

  /** The id of a block added or loaded at time `now`. */
  function NewId(now: nat): string { "block-" + Decimal(now) }

  /**
   * The `blocks` array `loadBlocks` builds from the page: each element's
   * `data-block-id` or, when it has none, `block-<now>`; its title; and
   * its indicator's background or else `getRandomColor()`, which still
   * sees the number of blocks from before the load.
   */
  function Loaded(page: seq<El>, count: nat, now: nat): (r: seq<Block>)
    ensures |r| == |page|
    ensures forall i :: 0 <= i < |page| ==>
      r[i].id != "" && r[i].title == page[i].title
      && (Truthy(page[i].blockId) ==> r[i].id == page[i].blockId.value)
      && (!Truthy(page[i].blockId) ==> r[i].id == NewId(now))
      && (Truthy(page[i].indicator) ==> r[i].color == page[i].indicator.value)
      && (!Truthy(page[i].indicator) ==> r[i].color == RandomColor(count))
  {
    seq(|page|, i requires 0 <= i < |page| =>
      Block(if Truthy(page[i].blockId) then page[i].blockId.value else NewId(now),
            page[i].title,
            if Truthy(page[i].indicator) then page[i].indicator.value else RandomColor(count)))
  }

  /** Every element without an indicator gets the same colour in one load. */
  lemma UncolouredShareColour(page: seq<El>, count: nat, now: nat, i: nat, j: nat)
    requires i < |page| && j < |page| && !Truthy(page[i].indicator) && !Truthy(page[j].indicator)
    ensures Loaded(page, count, now)[i].color == Loaded(page, count, now)[j].color
  {
  }

  /**
   * Elements without ids get the same id in one load, so a later delete
   * removes them together. This holds only because the model takes one
   * `now` for every `Date.now()` call of a load; two calls that straddle a
   * clock tick would give different ids.
   */
  lemma MissingIdsCollide(page: seq<El>, count: nat, now: nat, i: nat, j: nat)
    requires i < |page| && j < |page| && !Truthy(page[i].blockId) && !Truthy(page[j].blockId)
    ensures Loaded(page, count, now)[i].id == Loaded(page, count, now)[j].id
  {
  }

  /** A side-panel list item: its block id, its rectangle's top and height, and whether it is the one being dragged. */
  datatype Item = Item(id: string, top: real, height: real, dragging: bool)

  /** `y - box.top - box.height / 2`: how far the pointer is below the item's midpoint. */
  function Offset(it: Item, y: real): real { y - it.top - it.height / 2.0 }

  /** The items `getDragAfterElement` considers: not being dragged, with their midpoint below the pointer. */
  predicate Below(it: Item, y: real) { !it.dragging && Offset(it, y) < 0.0 }

  /**
   * `getDragAfterElement` over the first `n` items: the `reduce` keeps the
   * item below the pointer with the offset closest to 0, the first of equal
   * ones, starting from negative infinity (no item).
   */
  function AfterElement(items: seq<Item>, y: real, n: nat): (r: Option<nat>)
    requires n <= |items|
    ensures r.None? <==> forall j :: 0 <= j < n ==> !Below(items[j], y)
    ensures r.Some? ==> r.value < n && Below(items[r.value], y)
    ensures r.Some? ==> forall j :: 0 <= j < n && Below(items[j], y) ==> Offset(items[j], y) <= Offset(items[r.value], y)
    ensures r.Some? ==> forall j :: 0 <= j < r.value && Below(items[j], y) ==> Offset(items[j], y) < Offset(items[r.value], y)
  {
    if n == 0 then None
    else
      var closest := AfterElement(items, y, n - 1);
      var it := items[n - 1];
      if Below(it, y) && (closest.None? || Offset(it, y) > Offset(items[closest.value], y)) then Some(n - 1)
      else closest
  }

  /** The midpoints of the items rise from top to bottom, as they do in a list. */
  predicate Ascending(items: seq<Item>) {
    forall i, j :: 0 <= i < j < |items| ==> items[i].top + items[i].height / 2.0 < items[j].top + items[j].height / 2.0
  }

  /**
   * In a list laid out top to bottom, the element to insert before is the
   * first item, not being dragged, whose midpoint lies below the pointer.
   */
  lemma AfterElementIsFirstBelow(items: seq<Item>, y: real)
    requires Ascending(items)
    ensures var r := AfterElement(items, y, |items|);
      r.Some? ==> forall j :: 0 <= j < r.value ==> !Below(items[j], y)
  {
  }

  /** `Math.max(200, startHeight + deltaY)`. */
  function ResizedHeight(startHeight: int, startY: int, clientY: int): (h: int)
    ensures h >= 200 && h >= startHeight + (clientY - startY)
    ensures h == 200 || h == startHeight + (clientY - startY)
  {
    var h := startHeight + (clientY - startY);
    if h > 200 then h else 200
  }

  /** The test `b => b.id !== blockId`. */
  function KeepUnless(id: string): Block -> bool { (b: Block) => b.id != id }

  /** Deleting a block just added, whose id was new, gives back the blocks from before. */
  lemma DeleteUndoesAdd(blocks: seq<Block>, b: Block)
    requires forall i :: 0 <= i < |blocks| ==> blocks[i].id != b.id
    ensures Filter(blocks + [b], KeepUnless(b.id)) == blocks
  {
    FilterAppend(blocks, [b], KeepUnless(b.id));
    FilterAll(blocks, KeepUnless(b.id));
    assert Filter([b], KeepUnless(b.id)) == [];
  }

  /** The selector `.content-block[data-block-id="<id>"]`. */
  function HasBlockId(id: string): El -> bool { (e: El) => e.blockId == Some(id) }

  /**
   * The content blocks as a corrected `updateMainContentOrder` leaves them:
   * for each id the side panel lists, in panel order, the first element
   * carrying it, taken at the id's first listing; an id with no element is
   * skipped.
   */
  function Arranged(page: seq<El>, panel: seq<string>): (r: seq<El>)
    ensures |r| <= |panel|
    ensures forall k :: 0 <= k < |r| ==> r[k] in page
    decreases |panel|
  {
    if panel == [] then []
    else
      var n := |panel| - 1;
      var i := FindIndex(page, HasBlockId(panel[n]));
      Arranged(page, panel[..n]) + if i.Some? && panel[n] !in panel[..n] then [page[i.value]] else []
  }

  /** The panel lists no id twice. */
  predicate DistinctIds(panel: seq<string>)
  {
    forall a, b :: 0 <= a < b < |panel| ==> panel[a] != panel[b]
  }

  /** Every id the panel lists has an element on the page. */
  predicate AllOnPage(page: seq<El>, panel: seq<string>)
  {
    forall k :: 0 <= k < |panel| ==> FindIndex(page, HasBlockId(panel[k])).Some?
  }

  /** One step of `Arranged`: a new id found on the page appends its element. */
  lemma ArrangedSnoc(page: seq<El>, panel: seq<string>, id: string, i: nat)
    requires id !in panel && FindIndex(page, HasBlockId(id)) == Some(i)
    ensures Arranged(page, panel + [id]) == Arranged(page, panel) + [page[i]]
  {
    assert (panel + [id])[..|panel|] == panel;
  }

  /** A panel whose ids are distinct and all on the page puts the blocks in exactly its order. */
  lemma {:induction false} ArrangedFollowsPanel(page: seq<El>, panel: seq<string>)
    requires DistinctIds(panel)
    requires AllOnPage(page, panel)
    ensures var r := Arranged(page, panel);
      |r| == |panel| && forall k :: 0 <= k < |panel| ==> r[k].blockId == Some(panel[k])
    decreases |panel|
  {
    if panel != [] {
      var n := |panel| - 1;
      var pre, id := panel[..n], panel[n];
      assert panel == pre + [id];
      assert id !in pre by {
        forall a | 0 <= a < n ensures pre[a] != id {
          assert pre[a] == panel[a];
        }
      }
      assert DistinctIds(pre) by {
        forall a, b | 0 <= a < b < n ensures pre[a] != pre[b] {
          assert pre[a] == panel[a] && pre[b] == panel[b];
        }
      }
      assert AllOnPage(page, pre) by {
        forall k | 0 <= k < n ensures FindIndex(page, HasBlockId(pre[k])).Some? {
          assert pre[k] == panel[k];
        }
      }
      ArrangedFollowsPanel(page, pre);
      var i := FindIndex(page, HasBlockId(id)).value;
      ArrangedSnoc(page, pre, id, i);
      var prev := Arranged(page, pre);
      var r := prev + [page[i]];
      assert HasBlockId(id)(page[i]);
      forall k | 0 <= k < |panel| ensures r[k].blockId == Some(panel[k]) {
        if k < n {
          assert r[k] == prev[k] && pre[k] == panel[k];
        }
      }
    }
  }

  /**
   * When, besides, the page's ids are distinct and the panel lists every
   * block, every block comes back: the arrangement is the page reordered.
   */
  lemma ArrangedKeepsAll(page: seq<El>, panel: seq<string>)
    requires DistinctIds(panel)
    requires AllOnPage(page, panel)
    requires forall a, b :: 0 <= a < b < |page| ==> page[a].blockId != page[b].blockId
    requires forall j :: 0 <= j < |page| ==> page[j].blockId.Some? && page[j].blockId.value in panel
    ensures forall j :: 0 <= j < |page| ==> page[j] in Arranged(page, panel)
  {
    var r := Arranged(page, panel);
    ArrangedFollowsPanel(page, panel);
    forall j | 0 <= j < |page| ensures page[j] in r {
      var id := page[j].blockId.value;
      var k :| 0 <= k < |panel| && panel[k] == id;
      var j' :| 0 <= j' < |page| && page[j'] == r[k];
      assert page[j'].blockId == page[j].blockId;
    }
  }

  /** A resize in progress on the element at `index`. */
  datatype Resize = Resize(index: nat, startHeight: int, startY: int)

  class BlocksManager {
    var blocks: seq<Block>
    /** The `.content-block` elements, in page order. */
    var page: seq<El>
    var resizing: Option<Resize>
    /** The entries `block_heights` and `deleted_blocks`. */
    var heights: Slot<Dict.Dict<int>>
    var deleted: Slot<seq<string>>
    /** The entry `block_order`. */
    var order: Slot<seq<string>>

    predicate Valid()
      reads this
    {
      (forall i :: 0 <= i < |page| ==> Truthy(page[i].blockId))
      && (resizing.Some? ==> resizing.value.index < |page|)
      && (heights.Stored? ==> Dict.Valid(heights.value))
    }

    /** The constructor, which runs `loadBlocks` over the page at time `now`. */
    constructor (page: seq<El>, now: nat, heights: Slot<Dict.Dict<int>>, deleted: Slot<seq<string>>, order: Slot<seq<string>>)
      requires heights.Stored? ==> Dict.Valid(heights.value)
      ensures Valid()
      ensures blocks == Loaded(page, 0, now) && |this.page| == |page| && resizing.None?
      ensures forall i :: 0 <= i < |page| ==> this.page[i] == page[i].(blockId := Some(blocks[i].id))
      ensures this.heights == heights && this.deleted == deleted && this.order == order
    {
      this.blocks := [];
      this.page := page;
      this.resizing := None;
      this.heights := heights;
      this.deleted := deleted;
      this.order := order;
      new;
      LoadBlocks(now);
    }

    /**
     * `loadBlocks`: the blocks are read from the page, and every element
     * then carries its block's id as `data-block-id`.
     */
    method LoadBlocks(now: nat)
      modifies this`blocks, this`page
      requires resizing.Some? ==> resizing.value.index < |page|
      requires heights.Stored? ==> Dict.Valid(heights.value)
      ensures Valid()
      ensures blocks == Loaded(old(page), |old(blocks)|, now)
      ensures |page| == |old(page)|
      ensures forall i :: 0 <= i < |page| ==> page[i] == old(page)[i].(blockId := Some(blocks[i].id))
    {
      blocks := Loaded(page, |blocks|, now);
      var i := 0;
      while i < |blocks|
        invariant 0 <= i <= |blocks| == |page| == |old(page)|
        invariant blocks == Loaded(old(page), |old(blocks)|, now)
        invariant forall j :: 0 <= j < i ==> page[j] == old(page)[j].(blockId := Some(blocks[j].id))
        invariant forall j :: i <= j < |page| ==> page[j] == old(page)[j]
      {
        if page[i].blockId != Some(blocks[i].id) {
          page := page[i := page[i].(blockId := Some(blocks[i].id))];
        } else {
          assert page[i] == old(page)[i].(blockId := Some(blocks[i].id));
        }
        i := i + 1;
      }
    }

    /**
     * `addNewBlock(title)` at time `now`: when the container exists, a block
     * `block-<now>` with the next palette colour goes at the end of the page
     * and of `blocks`; otherwise nothing happens.
     */
    method AddNewBlock(now: nat, title: string, hasContainer: bool) returns (blockId: Option<string>)
      requires Valid()
      modifies this`blocks, this`page
      ensures Valid()
      ensures !hasContainer ==> blockId.None? && blocks == old(blocks) && page == old(page)
      ensures hasContainer ==>
        blockId == Some(NewId(now))
        && blocks == old(blocks) + [Block(NewId(now), title, RandomColor(|old(blocks)|))]
        && page == old(page) + [El(Some(NewId(now)), title, Some(RandomColor(|old(blocks)|)), None)]
    {
      if !hasContainer {
        return None;
      }
      var id := NewId(now);
      var color := RandomColor(|blocks|);
      page := page + [El(Some(id), title, Some(color), None)];
      blocks := blocks + [Block(id, title, color)];
      blockId := Some(id);
    }

    /**
     * `deleteBlock` on the element at `k`, once confirmed: every block with
     * its id leaves `blocks`, the element leaves the page, and the id is
     * logged as deleted.
     */
    method DeleteBlock(k: nat, confirmed: bool)
      requires Valid() && k < |page| && resizing.None?
      modifies this`blocks, this`page, this`deleted
      ensures Valid()
      ensures !confirmed ==> blocks == old(blocks) && page == old(page) && deleted == old(deleted)
      ensures confirmed ==>
        var id := old(page)[k].blockId.value;
        blocks == Filter(old(blocks), KeepUnless(id))
        && (forall i :: 0 <= i < |blocks| ==> blocks[i].id != id)
        && page == RemoveAt(old(page), k)
        && deleted == LoggedDeleted(old(deleted), id)
    {
      if !confirmed {
        return;
      }
      var id := page[k].blockId.value;
      blocks := Filter(blocks, KeepUnless(id));
      page := RemoveAt(page, k);
      SaveDeletedBlock(id);
    }

    /** `saveBlockOrder`: the ids the side panel lists, in panel order, are stored as `block_order`. */
    method SaveBlockOrder(panel: seq<string>)
      modifies this`order
      ensures order == Stored(panel)
    {
      order := Stored(panel);
    }

    /**
     * `updateMainContentOrder` as written, after a drop in the side panel,
     * with `panel` the ids the panel lists after the move and `hasContainers`
     * whether `#block-list` and `#blocks-container` exist. Clearing the
     * container detaches every block, so the `document.querySelector` of
     * each listed id finds nothing and nothing is appended again. The panel
     * order is still stored, and `loadBlocks` then reads an empty page.
     */
    method UpdateMainContentOrder(panel: seq<string>, now: nat, hasContainers: bool)
      requires Valid() && resizing.None?
      modifies this`page, this`blocks, this`order
      ensures Valid()
      ensures !hasContainers ==> page == old(page) && blocks == old(blocks) && order == old(order)
      ensures hasContainers ==> page == [] && blocks == [] && order == Stored(panel)
    {
      if !hasContainers {
        return;
      }
      page := [];
      SaveBlockOrder(panel);
      LoadBlocks(now);
    }

    /**
     * `updateMainContentOrder` corrected: the listed blocks are found before
     * the container is cleared, and appended again in panel order, each
     * once; then the order is stored and the blocks are read back.
     */
    method UpdateMainContentOrderAsIntended(panel: seq<string>, now: nat, hasContainers: bool)
      requires Valid() && resizing.None?
      modifies this`page, this`blocks, this`order
      ensures Valid()
      ensures !hasContainers ==> page == old(page) && blocks == old(blocks) && order == old(order)
      ensures hasContainers ==>
        page == Arranged(old(page), panel)
        && blocks == Loaded(page, |old(blocks)|, now)
        && order == Stored(panel)
    {
      if !hasContainers {
        return;
      }
      var found: seq<El> := [];
      var k := 0;
      while k < |panel|
        invariant 0 <= k <= |panel|
        invariant found == Arranged(page, panel[..k])
      {
        var i := FindIndex(page, HasBlockId(panel[k]));
        assert panel[..k + 1][..k] == panel[..k] && panel[..k + 1][k] == panel[k];
        if i.Some? && panel[k] !in panel[..k] {
          found := found + [page[i.value]];
        }
        k := k + 1;
      }
      assert panel[..k] == panel;
      ghost var p0 := page;
      page := found;
      SaveBlockOrder(panel);
      LoadBlocks(now);
      forall j | 0 <= j < |page| ensures page[j] == found[j] {
        assert found[j] in p0;
      }
    }

    /** `saveDeletedBlock`: the id is logged unless it already is. */
    method SaveDeletedBlock(id: string)
      modifies this`deleted
      ensures deleted == LoggedDeleted(old(deleted), id)
    {
      var d := ReadOr(deleted, []);
      if d.Some? && id !in d.value {
        deleted := Stored(d.value + [id]);
      }
    }

    /** `saveBlockHeight`: only that id's height changes. */
    method SaveBlockHeight(id: string, height: int)
      requires Valid()
      modifies this`heights
      ensures Valid()
      ensures var d := ReadOr(old(heights), Dict.Empty());
        heights == if d.None? then old(heights) else Stored(Dict.Put(d.value, id, height))
    {
      var d := ReadOr(heights, Dict.Empty());
      if d.Some? {
        heights := Stored(Dict.Put(d.value, id, height));
      }
    }

    /** `startResizing` on the element at `k`, whose rendered height is `offsetHeight`. */
    method StartResizing(k: nat, offsetHeight: int, clientY: int)
      requires Valid() && k < |page|
      modifies this`resizing
      ensures Valid()
      ensures resizing == Some(Resize(k, offsetHeight, clientY))
    {
      resizing := Some(Resize(k, offsetHeight, clientY));
    }

    /** `mousemove` during a resize: only that element's height changes, to at least 200. */
    method ResizeMouseMove(clientY: int)
      requires Valid()
      modifies this`page
      ensures Valid()
      ensures resizing.None? ==> page == old(page)
      ensures resizing.Some? ==>
        var r := resizing.value;
        page == old(page)[r.index := old(page)[r.index].(height := Some(ResizedHeight(r.startHeight, r.startY, clientY)))]
    {
      if resizing.None? {
        return;
      }
      var r := resizing.value;
      page := page[r.index := page[r.index].(height := Some(ResizedHeight(r.startHeight, r.startY, clientY)))];
    }

    /** `mouseup` after a resize: the handlers go and the rendered height is saved under the element's id. */
    method ResizeMouseUp(offsetHeight: int)
      requires Valid()
      modifies this`resizing, this`heights
      ensures Valid()
      ensures resizing.None?
      ensures old(resizing).None? ==> heights == old(heights)
      ensures old(resizing).Some? ==>
        var id := page[old(resizing).value.index].blockId.value;
        var d := ReadOr(old(heights), Dict.Empty());
        heights == if d.None? then old(heights) else Stored(Dict.Put(d.value, id, offsetHeight))
    {
      if resizing.None? {
        return;
      }
      var id := page[resizing.value.index].blockId.value;
      resizing := None;
      SaveBlockHeight(id, offsetHeight);
    }
  }

  /** The `deleted_blocks` entry after logging `id`: unchanged when unreadable or already listed. */
  function LoggedDeleted(slot: Slot<seq<string>>, id: string): (r: Slot<seq<string>>)
    ensures var d := ReadOr(slot, []);
      d.None? ==> r == slot
    ensures ReadOr(slot, []).Some? ==> r.Stored? && id in r.value
  {
    var d := ReadOr(slot, []);
    if d.Some? && id !in d.value then Stored(d.value + [id]) else slot
  }

  /** Logging keeps the list free of repetitions, and logging the same id twice is logging it once. */
  lemma LoggedDeletedDistinct(slot: Slot<seq<string>>, id: string)
    requires slot.Stored? ==> Distinct(slot.value)
    ensures var r := LoggedDeleted(slot, id); r.Stored? ==> Distinct(r.value)
    ensures LoggedDeleted(LoggedDeleted(slot, id), id) == LoggedDeleted(slot, id)
  {
    var d := ReadOr(slot, []);
    if d.Some? && id !in d.value {
      var s := d.value + [id];
      forall i, j | 0 <= i < j < |s| ensures s[i] != s[j] {
        if j == |s| - 1 {
          assert s[i] in d.value;
        }
      }
    }
  }
}
