/**
 * qwenooooo/blocks.js: the module-level `blocks` array of project blocks,
 * kept under `portfolio_blocks`. Rendering sorts it in place by `order` and
 * saves it; deleting renumbers the orders densely; the side panel assigns
 * orders by position; the resize handle drags a block's height, floored at
 * 200. The DOM is left out: the rendered panel order is a sequence of ids,
 * pointer positions and computed heights are numbers, `Date.now()` is a
 * parameter.
 */
module QwenBlocks {
  import opened Wrappers
  import opened Storage
  import opened Records
  import opened JsText
  import opened Sorting

  datatype Block = Block(id: string, title: string, order: int, height: int)

  const DefaultHeight: int := 300
  const MinHeight: int := 200
  const NewTitle: string := "项目块"

  /** The five blocks used when nothing is stored. */
  function Defaults(): seq<Block> {
    [ Block("intro", "自我介绍", 0, DefaultHeight),
      Block("exp", "工作经历", 1, DefaultHeight),
      Block("skills", "技术能力", 2, DefaultHeight),
      Block("works", "作品集", 3, DefaultHeight),
      Block("contact", "联系我", 4, DefaultHeight) ]
  }

  /** Every block's order is its index: orders are exactly 0..n-1 in array order. */
  predicate Dense(s: seq<Block>) {
    forall i :: 0 <= i < |s| ==> s[i].order == i
  }

  function BlockId(id: string): Block -> bool {
    (b: Block) => b.id == id
  }

  function Ids(s: seq<Block>): seq<string> {
    Keys(s, (b: Block) => b.id)
  }

  /** The defaults are five blocks, 300 px high, with distinct ids and orders 0..4. */
  lemma DefaultsDense()
    ensures |Defaults()| == 5 && Dense(Defaults()) && Distinct(Ids(Defaults()))
    ensures forall i :: 0 <= i < 5 ==> Defaults()[i].height == DefaultHeight
  {
  }

  /**
   * The first line of the file: the stored array, or the defaults when
   * nothing is stored; `None` when the stored text does not parse, where
   * `JSON.parse` throws and the script stops.
   */
  function Initial(slot: Slot<seq<Block>>): (r: Option<seq<Block>>)
    ensures slot.Absent? ==> r == Some(Defaults())
    ensures slot.Stored? ==> r == Some(slot.value)
    ensures slot.Unparseable? ==> r.None?
  {
    ReadOr(slot, Defaults())
  }

  function Order(b: Block): int { b.order }

  /** A dense array is already in order. */
  lemma DenseSorted(s: seq<Block>)
    requires Dense(s)
    ensures SortedBy(s, Order)
  {
  }

  /**
   * `blocks.sort((a, b) => a.order - b.order)`: the array sorted by order,
   * the same blocks, equal orders keeping their relative place.
   */
  function Sort(s: seq<Block>): seq<Block> {
    SortBy(s, Order)
  }

  /** The orders of `s` renumbered by index. */
  function Renumbered(s: seq<Block>): (r: seq<Block>)
    ensures |r| == |s| && Dense(r)
    ensures forall i :: 0 <= i < |s| ==> r[i] == s[i].(order := i)
  {
    seq(|s|, i requires 0 <= i < |s| => s[i].(order := i))
  }

  /** The block `addNewBlock` appends to an array of length n. */
  function NewBlock(now: nat, n: nat): Block {
    Block("block-" + Decimal(now), NewTitle, n, DefaultHeight)
  }

  /** Appending a block whose order is the old length keeps the orders dense. */
  lemma AddKeepsDense(s: seq<Block>, now: nat)
    requires Dense(s)
    ensures Dense(s + [NewBlock(now, |s|)])
  {
  }

  /** A block's height after the pointer moved `delta` px: never below 200. */
  function ResizedHeight(startHeight: int, delta: int): (h: int)
    ensures h >= MinHeight
    ensures h == startHeight + delta || (h == MinHeight && startHeight + delta < MinHeight)
  {
    if startHeight + delta < MinHeight then MinHeight else startHeight + delta
  }

  /** The handle's class while resizing: down past 5 px, up past -5 px, none in between. */
  function ResizeClass(delta: int): (c: Option<string>)
    ensures c == Some("resizing-down") <==> delta > 5
    ensures c == Some("resizing-up") <==> delta < -5
    ensures c.None? <==> -5 <= delta <= 5
  {
    if delta > 5 then Some("resizing-down")
    else if delta < -5 then Some("resizing-up")
    else None
  }

  /** Dragging back to the start leaves the height unchanged once it was at least 200. */
  lemma ResizeBackToStart(startHeight: int)
    requires startHeight >= MinHeight
    ensures ResizedHeight(startHeight, 0) == startHeight && ResizeClass(0).None?
  {
  }

  /** What the resize handle's `mousedown` records for one block. */
  datatype Resize = Resize(id: string, startY: int, startHeight: int)

  class BlockList {
    var blocks: seq<Block>
    /** `portfolio_blocks` in `localStorage`. */
    var saved: Slot<seq<Block>>
    var resizing: Option<Resize>

    /** The state once the first line has run, with `initial` what it read. */
    constructor (stored: Slot<seq<Block>>, initial: seq<Block>)
      requires Initial(stored) == Some(initial)
      ensures blocks == initial && saved == stored && resizing.None?
    {
      blocks := initial;
      saved := stored;
      resizing := None;
    }

    /** `renderBlocks` as far as the data goes: sort by order in place, then save. */
    method RenderBlocks()
      modifies this`blocks, this`saved
      ensures blocks == Sort(old(blocks)) && saved == Stored(blocks)
    {
      blocks := Sort(blocks);
      SaveBlocks();
    }

    /** `saveBlocks`: the whole array under `portfolio_blocks`. */
    method SaveBlocks()
      modifies this`saved
      ensures saved == Stored(blocks)
    {
      saved := Stored(blocks);
    }

    /** The `forEach` of `deleteBlock` that sets each block's order to its index. */
    method RenumberOrders()
      modifies this`blocks
      ensures blocks == Renumbered(old(blocks))
    {
      var i := 0;
      while i < |blocks|
        invariant 0 <= i <= |blocks| == |old(blocks)|
        invariant forall j :: 0 <= j < i ==> blocks[j] == old(blocks)[j].(order := j)
        invariant forall j :: i <= j < |blocks| ==> blocks[j] == old(blocks)[j]
      {
        blocks := blocks[i := blocks[i].(order := i)];
        i := i + 1;
      }
    }

    /**
     * `deleteBlock(id)`: every block with that id goes, the rest are
     * renumbered 0..n-1 in their current order, then rendered. The
     * deleted block's stickers are not touched.
     */
    method DeleteBlock(id: string)
      modifies this`blocks, this`saved
      ensures blocks == Renumbered(Filter(old(blocks), (b: Block) => b.id != id))
      ensures Dense(blocks) && forall i :: 0 <= i < |blocks| ==> blocks[i].id != id
      ensures saved == Stored(blocks)
    {
      blocks := Filter(blocks, (b: Block) => b.id != id);
      RenumberOrders();
      var kept := blocks;
      DenseSorted(kept);
      SortBySorted(kept, Order);
      RenderBlocks();
    }

    /** `addNewBlock(now)`: one block `block-<now>` titled 项目块, 300 px high, order = old length; then rendered. */
    method AddNewBlock(now: nat)
      modifies this`blocks, this`saved
      ensures blocks == Sort(old(blocks) + [NewBlock(now, |old(blocks)|)])
      ensures Dense(old(blocks)) ==> blocks == old(blocks) + [NewBlock(now, |old(blocks)|)]
      ensures saved == Stored(blocks)
    {
      blocks := blocks + [NewBlock(now, |blocks|)];
      if Dense(old(blocks)) {
        AddKeepsDense(old(blocks), now);
        DenseSorted(blocks);
        SortBySorted(blocks, Order);
      }
      RenderBlocks();
    }

    /**
     * `updateBlockOrderFromSidebar`: the first block with the id of the i-th
     * panel item gets order i; ids with no block are skipped; then rendered.
     */
    method UpdateBlockOrderFromSidebar(panel: seq<string>)
      modifies this`blocks, this`saved
      ensures blocks == Sort(AssignOrders(old(blocks), panel, 0, (b: Block) => b.id, (b: Block, o: int) => b.(order := o)))
      ensures saved == Stored(blocks)
    {
      var i := 0;
      while i < |panel|
        invariant 0 <= i <= |panel|
        invariant blocks == AssignOrders(old(blocks), panel[..i], 0, (b: Block) => b.id, (b: Block, o: int) => b.(order := o))
      {
        assert panel[..i + 1][..i] == panel[..i];
        var k := FindIndex(blocks, BlockId(panel[i]));
        if k.Some? {
          blocks := blocks[k.value := blocks[k.value].(order := i)];
        }
        i := i + 1;
      }
      assert panel[..i] == panel;
      RenderBlocks();
    }

    /** The handle's `mousedown`: ignored outside edit mode. */
    method ResizeMouseDown(id: string, editMode: bool, clientY: int, minHeight: int)
      modifies this`resizing
      ensures resizing == if editMode then Some(Resize(id, clientY, minHeight)) else old(resizing)
    {
      if editMode {
        resizing := Some(Resize(id, clientY, minHeight));
      }
    }

    /**
     * The document `mousemove` while resizing: the first block with the
     * resized id gets the new height (not saved yet), and the handle's
     * class is returned.
     */
    method ResizeMouseMove(clientY: int) returns (handleClass: Option<string>)
      modifies this`blocks
      ensures resizing.None? ==> blocks == old(blocks) && handleClass.None?
      ensures resizing.Some? ==>
        var r := resizing.value;
        handleClass == ResizeClass(clientY - r.startY)
        && blocks == UpdateFirst(old(blocks), BlockId(r.id), (b: Block) => b.(height := ResizedHeight(r.startHeight, clientY - r.startY)))
    {
      if resizing.None? {
        return None;
      }
      var r := resizing.value;
      var delta := clientY - r.startY;
      var h := ResizedHeight(r.startHeight, delta);
      handleClass := ResizeClass(delta);
      var k := FindIndex(blocks, BlockId(r.id));
      if k.Some? {
        blocks := blocks[k.value := blocks[k.value].(height := h)];
      }
    }

    /** The document `mouseup`: ends the resize and saves. */
    method ResizeMouseUp()
      modifies this`resizing, this`saved
      ensures old(resizing).Some? ==> resizing.None? && saved == Stored(blocks)
      ensures old(resizing).None? ==> resizing.None? && saved == old(saved)
    {
      if resizing.Some? {
        resizing := None;
        SaveBlocks();
      }
    }
  }

  /**
   * With distinct block ids and a panel listing each id once, the block at
   * panel position i gets order i and any other block is unchanged.
   */
  lemma PanelOrders(blocks: seq<Block>, panel: seq<string>, k: nat)
    requires Distinct(Ids(blocks)) && Distinct(panel) && k < |blocks|
    ensures var r := AssignOrders(blocks, panel, 0, (b: Block) => b.id, (b: Block, o: int) => b.(order := o));
      var at := IndexOf(panel, blocks[k].id);
      (at.Some? ==> r[k] == blocks[k].(order := at.value))
      && (at.None? ==> r[k] == blocks[k])
  {
    AssignOrdersAt(blocks, panel, 0, (b: Block) => b.id, (b: Block, o: int) => b.(order := o), k);
  }

  /** Deleting the block just added gives the renumbered array back. */
  lemma DeleteUndoesAdd(s: seq<Block>, now: nat)
    requires Dense(s) && NewBlock(now, |s|).id !in Ids(s)
    ensures Renumbered(Filter(s + [NewBlock(now, |s|)], (b: Block) => b.id != NewBlock(now, |s|).id)) == s
  {
    DeleteUndoesAppend(s, NewBlock(now, |s|));
  }

  /** Filtering out a block appended under a fresh id leaves the dense array it was appended to. */
  lemma DeleteUndoesAppend(s: seq<Block>, nb: Block)
    requires Dense(s) && nb.id !in Ids(s)
    ensures Renumbered(Filter(s + [nb], (b: Block) => b.id != nb.id)) == s
  {
    var p := (b: Block) => b.id != nb.id;
    FilterAppend(s, [nb], p);
    forall i | 0 <= i < |s| ensures p(s[i]) {
      assert Ids(s)[i] == s[i].id;
    }
    FilterAll(s, p);
    assert Filter([nb], p) == [];
    var r := Renumbered(s);
    forall i | 0 <= i < |s| ensures r[i] == s[i] {
      assert s[i].order == i;
    }
  }
}
