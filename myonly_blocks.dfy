/**
 * myonly/blocks.js, class `BlocksManager`: the content blocks are elements
 * of the content area, listed by id, with a side panel that lists them for
 * sorting by drag. Their heights, their display order, the deleted ids and
 * the added blocks are kept in `localStorage`. Element geometry and the
 * clock are parameters.
 */
module MyonlyBlocks {
  import opened Wrappers
  import opened Storage
  import opened Records
  import opened JsText
  import Dict

  /** The vertical extent of a panel item, from `getBoundingClientRect`. */
  datatype Box = Box(top: real, height: real)

  function Center(b: Box): real { b.top + b.height / 2.0 }

  /**
   * The insertion search of `handleDragMove`: the first panel item other
   * than the dragged one (at index `dragged`, if it is listed) whose centre
   * lies below the dragged item's centre, or -1 when there is none.
   */
  method InsertIndex(items: seq<Box>, dragged: Option<nat>, dragCenter: real) returns (index: int)
    ensures -1 <= index < |items|
    ensures index == -1 <==> forall i :: 0 <= i < |items| && Some(i) != dragged ==> dragCenter >= Center(items[i])
    ensures index >= 0 ==> Some(index as nat) != dragged && dragCenter < Center(items[index])
    ensures index >= 0 ==> forall j :: 0 <= j < index && Some(j) != dragged ==> dragCenter >= Center(items[j])
  {
    index := -1;
    var i := 0;
    while i < |items|
      invariant 0 <= i <= |items|
      invariant forall j :: 0 <= j < i && Some(j) != dragged ==> dragCenter >= Center(items[j])
    {
      if Some(i) != dragged && dragCenter < Center(items[i]) {
        index := i;
        return;
      }
      i := i + 1;
    }
  }

  /** `appendChild` of the element with id `x`, if the content area has it: it moves to the end. */
  function Move(content: seq<string>, x: string): (r: seq<string>) {
    if x in content then Filter(content, (y: string) => y != x) + [x] else content
  }

  /** `reorderContentBlocks(order)`: the ids of `order` are moved to the end one after the other. */
  function Reordered(content: seq<string>, order: seq<string>): (r: seq<string>)
    decreases |order|
  {
    if order == [] then content else Move(Reordered(content, order[..|order| - 1]), order[|order| - 1])
  }

  function NotIn(o: seq<string>): string -> bool { (y: string) => y !in o }
  function In(c: seq<string>): string -> bool { (y: string) => y in c }

  /**
   * When `order` names no id twice, reordering puts the blocks `order` does
   * not name first, in their old order, and then the blocks it names, in its
   * order; ids with no block are skipped.
   */
  lemma {:induction false} ReorderedShape(content: seq<string>, order: seq<string>)
    requires Distinct(order)
    ensures Reordered(content, order) == Filter(content, NotIn(order)) + Filter(order, In(content))
    decreases |order|
  {
    if order == [] {
      FilterAll(content, NotIn(order));
      FilterNone(order, In(content));
    } else {
      var n := |order| - 1;
      assert order == order[..n] + [order[n]];
      assert Distinct(order[..n]);
      ReorderedShape(content, order[..n]);
      MoveStep(content, order[..n], order[n]);
    }
  }

  /** One step of `ReorderedShape`: moving an id that `o` does not name. */
  lemma MoveStep(content: seq<string>, o: seq<string>, x: string)
    requires x !in o
    ensures Move(Filter(content, NotIn(o)) + Filter(o, In(content)), x)
            == Filter(content, NotIn(o + [x])) + Filter(o + [x], In(content))
  {
    FilterAppend(o, [x], In(content));
    if x in content {
      MoveStepPresent(content, o, x);
    } else {
      var a := Filter(content, NotIn(o));
      var b := Filter(o, In(content));
      assert x !in a + b;
      FilterAgree(content, NotIn(o), NotIn(o + [x]));
      assert Filter([x], In(content)) == [];
    }
  }

  lemma MoveStepPresent(content: seq<string>, o: seq<string>, x: string)
    requires x !in o && x in content
    ensures Move(Filter(content, NotIn(o)) + Filter(o, In(content)), x)
            == Filter(content, NotIn(o + [x])) + Filter(o, In(content)) + [x]
  {
    var a := Filter(content, NotIn(o));
    var b := Filter(o, In(content));
    var notX := (y: string) => y != x;
    assert x in a;
    FilterAppend(a, b, notX);
    FilterFilter(content, NotIn(o), notX, NotIn(o + [x]));
    FilterAll(b, notX);
  }

  /**
   * After a panel drag the panel still lists the blocks in their own order
   * (`handleDragMove` only restyles the dragged item), so the drag leaves
   * the content order as it was.
   */
  lemma PanelOrderUnchanged(content: seq<string>)
    requires Distinct(content)
    ensures Reordered(content, content) == content
  {
    ReorderedShape(content, content);
    FilterNone(content, NotIn(content));
    FilterAll(content, In(content));
  }

  /**
   * The height of a block whose handle was pressed at a height `startHeight`
   * and dragged by `deltaY`, with the arrow the direction indicator shows.
   */
  function ResizeStep(startHeight: int, deltaY: int): (r: (int, char))
    ensures r.0 >= 200 && (r.0 == startHeight + deltaY || (r.0 == 200 && startHeight + deltaY < 200))
    ensures r.1 == '↓' <==> deltaY > 0
    ensures r.1 == '↓' || r.1 == '↑'
  {
    (if startHeight + deltaY >= 200 then startHeight + deltaY else 200, if deltaY > 0 then '↓' else '↑')
  }

  /** An entry of the `portfolio_new_blocks` log. */
  datatype NewBlock = NewBlock(id: string, title: string, content: string)

  /**
   * `JSON.parse(localStorage.getItem(k) || '[]')` with `x` pushed: there is
   * no duplicate check, so `x` is listed once more than before; `None` where
   * the read throws.
   */
  function AppendLog<T>(slot: Slot<seq<T>>, x: T): (r: Option<seq<T>>)
    ensures r.None? <==> slot.Unparseable?
    ensures r.Some? ==> multiset(r.value)[x] == multiset(ReadOr(slot, []).value)[x] + 1
    ensures r.Some? ==> r.value[..|r.value| - 1] == ReadOr(slot, []).value
  {
    var log := ReadOr(slot, []);
    if log.None? then None
    else
      assert (log.value + [x])[..|log.value|] == log.value;
      Some(log.value + [x])
  }

  /** Saving the same id twice lists it twice. */
  lemma SavedTwiceListedTwice(slot: Slot<seq<string>>, id: string)
    requires !slot.Unparseable?
    ensures var once := AppendLog(slot, id).value;
      multiset(AppendLog(Stored(once), id).value)[id] == multiset(ReadOr(slot, []).value)[id] + 2
  {
  }

  /**
   * The heights `loadFromStorage` leaves on the blocks: each stored height
   * whose id, among `keys`, names a block; every other block keeps its own.
   */
  function ApplyHeights(style: map<string, int>, heights: map<string, int>, keys: seq<string>, content: seq<string>)
    : (r: map<string, int>)
    ensures forall k :: k in r <==> k in style || (k in keys && k in heights && k in content)
    ensures forall k :: k in r ==> r[k] == if k in keys && k in heights && k in content then heights[k] else style[k]
    decreases |keys|
  {
    if keys == [] then style
    else
      var n := |keys| - 1;
      var prev := ApplyHeights(style, heights, keys[..n], content);
      assert keys == keys[..n] + [keys[n]];
      if keys[n] in content && keys[n] in heights then prev[keys[n] := heights[keys[n]]] else prev
  }

  /** The defaults whose deletion asks a different question. */
  const DefaultBlocks: seq<string> := ["about", "projects", "skills", "contact"]
  const ConfirmDelete: string := "确定要删除这个项目块吗？此操作不可撤销。"
  const ConfirmDeleteDefault: string := "这是自带的项目块，确定要删除吗？删除后可以通过添加新项目块功能恢复。"

  class BlocksManager {
    /** The ids of the blocks in the content area, in document order. */
    var content: seq<string>
    /** The ids the sorting panel lists, in its order. */
    var panel: seq<string>
    /** Each block's `height` style, where one is set. */
    var heightStyle: map<string, int>
    var isDragging: bool
    /** The block id of the panel item being dragged. */
    var dragBlock: Option<string>
    /** `portfolio_block_order`, `portfolio_block_heights`, `portfolio_deleted_blocks`, `portfolio_new_blocks`. */
    var orderStore: Slot<seq<string>>
    var heightsStore: Slot<Dict.Dict<int>>
    var deletedStore: Slot<seq<string>>
    var newStore: Slot<seq<NewBlock>>

    predicate Valid()
      reads this
    {
      heightsStore.Stored? ==> Dict.Valid(heightsStore.value)
    }

    /** The manager over the blocks already on the page; `init` lists them in the panel. */
    constructor (content: seq<string>, orderStore: Slot<seq<string>>, heightsStore: Slot<Dict.Dict<int>>,
                 deletedStore: Slot<seq<string>>, newStore: Slot<seq<NewBlock>>)
      requires heightsStore.Stored? ==> Dict.Valid(heightsStore.value)
      ensures Valid() && this.content == content && panel == content && heightStyle == map[]
      ensures !isDragging && dragBlock.None?
      ensures this.orderStore == orderStore && this.heightsStore == heightsStore
      ensures this.deletedStore == deletedStore && this.newStore == newStore
    {
      this.content := content;
      panel := content;
      heightStyle := map[];
      isDragging := false;
      dragBlock := None;
      this.orderStore := orderStore;
      this.heightsStore := heightsStore;
      this.deletedStore := deletedStore;
      this.newStore := newStore;
    }

    /** `startDragSort`. */
    method StartDragSort(blockId: string)
      modifies this`isDragging, this`dragBlock
      ensures isDragging && dragBlock == Some(blockId)
    {
      isDragging := true;
      dragBlock := Some(blockId);
    }

    /** `reorderContentBlocks`: each listed id that names a block moves to the end. */
    method ReorderContentBlocks(order: seq<string>)
      modifies this`content
      ensures content == Reordered(old(content), order)
    {
      var i := 0;
      while i < |order|
        invariant 0 <= i <= |order|
        invariant content == Reordered(old(content), order[..i])
      {
        assert order[..i + 1][..i] == order[..i];
        var id := order[i];
        if id in content {
          content := Filter(content, (y: string) => y != id) + [id];
        }
        i := i + 1;
      }
      assert order[..i] == order;
    }

    /**
     * `handleDragEnd`: the content area is reordered by the panel's list and
     * that order is stored; without a dragged item nothing happens.
     */
    method HandleDragEnd()
      modifies this`content, this`isDragging, this`dragBlock, this`orderStore
      ensures old(dragBlock).None? ==> content == old(content) && isDragging == old(isDragging)
                                       && dragBlock == old(dragBlock) && orderStore == old(orderStore)
      ensures old(dragBlock).Some? ==> content == Reordered(old(content), panel) && !isDragging
                                       && dragBlock.None? && orderStore == Stored(content)
    {
      if dragBlock.None? {
        return;
      }
      isDragging := false;
      ReorderContentBlocks(panel);
      dragBlock := None;
      orderStore := Stored(content);
    }

    /** The mouse-move handler of `startResize`: the block's height follows the pointer, never under 200. */
    method HandleResizeMove(blockId: string, startHeight: int, startY: int, clientY: int) returns (arrow: char)
      modifies this`heightStyle
      ensures heightStyle == old(heightStyle)[blockId := ResizeStep(startHeight, clientY - startY).0]
      ensures arrow == ResizeStep(startHeight, clientY - startY).1
    {
      var step := ResizeStep(startHeight, clientY - startY);
      heightStyle := heightStyle[blockId := step.0];
      arrow := step.1;
    }

    /** `saveBlockHeight`, which the resize's mouse-up handler calls with the rendered height. */
    method SaveBlockHeight(blockId: string, height: int)
      requires Valid()
      modifies this`heightsStore
      ensures Valid()
      ensures var d := ReadOr(old(heightsStore), Dict.Empty());
        heightsStore == if d.None? then old(heightsStore) else Stored(Dict.Put(d.value, blockId, height))
    {
      var d := ReadOr(heightsStore, Dict.Empty());
      if d.Some? {
        heightsStore := Stored(Dict.Put(d.value, blockId, height));
      }
    }

    /** `saveDeletedBlock`. */
    method SaveDeletedBlock(blockId: string)
      modifies this`deletedStore
      ensures var log := AppendLog(old(deletedStore), blockId);
        deletedStore == if log.None? then old(deletedStore) else Stored(log.value)
    {
      var log := AppendLog(deletedStore, blockId);
      if log.Some? {
        deletedStore := Stored(log.value);
      }
    }

    /** `saveNewBlock`. */
    method SaveNewBlock(blockId: string, title: string, body: string)
      modifies this`newStore
      ensures var log := AppendLog(old(newStore), NewBlock(blockId, title, body));
        newStore == if log.None? then old(newStore) else Stored(log.value)
    {
      var log := AppendLog(newStore, NewBlock(blockId, title, body));
      if log.Some? {
        newStore := Stored(log.value);
      }
    }

    /**
     * `handleDeleteBlock` for the block `blockId` (`None` when the button is
     * not inside a block), with the user's answer to the confirmation. The
     * question differs for the four default blocks; the effect does not: the
     * block leaves the content area and the panel, and its id is logged.
     */
    method HandleDeleteBlock(blockId: Option<string>, confirmed: bool) returns (question: Option<string>)
      modifies this`content, this`panel, this`deletedStore
      ensures blockId.None? ==> question.None?
      ensures blockId.Some? ==> question == Some(if blockId.value in DefaultBlocks then ConfirmDeleteDefault else ConfirmDelete)
      ensures blockId.None? || !confirmed ==>
        content == old(content) && panel == old(panel) && deletedStore == old(deletedStore)
      ensures blockId.Some? && confirmed ==>
        var id := blockId.value;
        var log := AppendLog(old(deletedStore), id);
        content == Filter(old(content), (y: string) => y != id)
        && panel == RemoveFirst(old(panel), (y: string) => y == id)
        && deletedStore == if log.None? then old(deletedStore) else Stored(log.value)
    {
      if blockId.None? {
        return None;
      }
      var id := blockId.value;
      question := Some(if id in DefaultBlocks then ConfirmDeleteDefault else ConfirmDelete);
      if confirmed {
        content := Filter(content, (y: string) => y != id);
        panel := RemoveFirst(panel, (y: string) => y == id);
        SaveDeletedBlock(id);
      }
    }

    /**
     * `addNewBlock` at clock reading `now`: the block goes last in the
     * content area, the panel lists the content again, and the block is
     * logged.
     */
    method AddNewBlock(now: nat, title: string, body: string) returns (blockId: string)
      modifies this`content, this`panel, this`newStore
      ensures blockId == "block-" + Decimal(now)
      ensures content == old(content) + [blockId] && panel == content
      ensures var log := AppendLog(old(newStore), NewBlock(blockId, title, body));
        newStore == if log.None? then old(newStore) else Stored(log.value)
    {
      blockId := "block-" + Decimal(now);
      content := content + [blockId];
      panel := content;
      SaveNewBlock(blockId, title, body);
    }

    /** The loop of `loadFromStorage` that gives each stored height to its block, if there is one. */
    method ApplyStoredHeights(d: Dict.Dict<int>)
      modifies this`heightStyle
      ensures heightStyle == ApplyHeights(old(heightStyle), d.values, d.order, content)
    {
      var i := 0;
      while i < |d.order|
        invariant 0 <= i <= |d.order|
        invariant heightStyle == ApplyHeights(old(heightStyle), d.values, d.order[..i], content)
      {
        assert d.order[..i + 1][..i] == d.order[..i];
        var id := d.order[i];
        if id in content && id in d.values {
          heightStyle := heightStyle[id := d.values[id]];
        }
        i := i + 1;
      }
      assert d.order[..i] == d.order;
    }

    /**
     * `loadFromStorage`: a stored order reorders the blocks, stored heights
     * go to the blocks that exist, and the panel lists the content again. A
     * read that throws ends the load where it happens.
     */
    method LoadFromStorage()
      requires Valid()
      modifies this`content, this`heightStyle, this`panel
      ensures orderStore.Unparseable? ==> content == old(content) && heightStyle == old(heightStyle) && panel == old(panel)
      ensures !orderStore.Unparseable? ==>
        content == (if orderStore.Stored? then Reordered(old(content), orderStore.value) else old(content))
      ensures !orderStore.Unparseable? && heightsStore.Unparseable? ==>
        heightStyle == old(heightStyle) && panel == old(panel)
      ensures !orderStore.Unparseable? && !heightsStore.Unparseable? ==>
        var d := ReadOr(heightsStore, Dict.Empty()).value;
        heightStyle == ApplyHeights(old(heightStyle), d.values, d.order, content) && panel == content
    {
      if orderStore.Unparseable? {
        return;
      }
      if orderStore.Stored? {
        ReorderContentBlocks(orderStore.value);
      }
      var read := ReadOr(heightsStore, Dict.Empty());
      if read.None? {
        return;
      }
      ApplyStoredHeights(read.value);
      panel := content;
    }
  }
}
