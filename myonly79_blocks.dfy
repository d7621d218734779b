/**
 * myonly79/blocks.js, `BlocksManager`, together with the same panel, resize
 * and delete code in myonly79/script.js: deleting a block with its stickers,
 * the height handle, the sorting panel and the block order, adding blocks and
 * merging fields into one.
 */
module Myonly79Blocks {
  import opened Wrappers
  import opened Storage
  import opened Geometry
  import opened Records
  import opened Myonly79State
  import Sorting

  /** The test `s => s.parentBlockId !== id` that keeps the stickers of other blocks. */
  function NotOn(id: string): Sticker -> bool { (s: Sticker) => s.parentBlockId != Some(id) }

  /**
   * `deleteBlock`: the first block with that id goes, every sticker attached
   * to it goes, and everything is saved. The other blocks keep their fields,
   * `order` included.
   */
  method DeleteBlock(app: App, id: string)
    modifies app`blocks, app`stickers, app`saved
    ensures app.blocks == RemoveFirst(old(app.blocks), BlockId(id))
    ensures app.stickers == Filter(old(app.stickers), NotOn(id))
    ensures app.saved == old(app.saved).(blocks := Stored(app.blocks), stickers := Stored(app.stickers))
  {
    app.blocks := RemoveFirst(app.blocks, BlockId(id));
    app.stickers := Filter(app.stickers, NotOn(id));
    SaveData(app);
  }

  /**
   * The cascade of `deleteBlock`: no sticker is left on the deleted block,
   * and the stickers on other blocks or on none all stay, in order.
   */
  lemma {:induction false} DeleteCascade(stickers: seq<Sticker>, id: string)
    ensures forall k :: 0 <= k < |Filter(stickers, NotOn(id))| ==> Filter(stickers, NotOn(id))[k].parentBlockId != Some(id)
    ensures (forall k :: 0 <= k < |stickers| ==> stickers[k].parentBlockId != Some(id)) ==> Filter(stickers, NotOn(id)) == stickers
    ensures forall a, b :: stickers == a + b ==> Filter(stickers, NotOn(id)) == Filter(a, NotOn(id)) + Filter(b, NotOn(id))
  {
    if forall k :: 0 <= k < |stickers| ==> stickers[k].parentBlockId != Some(id) {
      FilterAll(stickers, NotOn(id));
    }
    forall a, b | stickers == a + b ensures Filter(stickers, NotOn(id)) == Filter(a, NotOn(id)) + Filter(b, NotOn(id)) {
      FilterAppend(a, b, NotOn(id));
    }
  }

  /** With unique block ids, `deleteBlock` removes exactly that block and keeps the rest in order. */
  lemma DeleteBlockExactly(blocks: seq<Block>, id: string)
    requires Distinct(Keys(blocks, (b: Block) => b.id))
    ensures RemoveFirst(blocks, BlockId(id)) == Filter(blocks, (b: Block) => b.id != id)
  {
    var ks := Keys(blocks, (b: Block) => b.id);
    assert AtMostOne(blocks, BlockId(id)) by {
      forall i, j | 0 <= i < j < |blocks| && BlockId(id)(blocks[i]) ensures !BlockId(id)(blocks[j]) {
        assert ks[i] != ks[j];
      }
    }
    RemoveOnlyMatch(blocks, BlockId(id), (b: Block) => b.id != id);
  }

  /**
   * `showDeleteConfirm` and the dialog behind it: the home block is never
   * deleted, nothing happens outside edit mode, and otherwise the block goes
   * when the user confirms.
   */
  method ShowDeleteConfirm(app: App, id: string, confirmed: bool)
    modifies app`blocks, app`stickers, app`saved
    ensures id == "home" || !app.isEditMode || !confirmed ==>
      app.blocks == old(app.blocks) && app.stickers == old(app.stickers) && app.saved == old(app.saved)
    ensures id != "home" && app.isEditMode && confirmed ==>
      app.blocks == RemoveFirst(old(app.blocks), BlockId(id))
      && app.stickers == Filter(old(app.stickers), NotOn(id))
      && app.saved == old(app.saved).(blocks := Stored(app.blocks), stickers := Stored(app.stickers))
  {
    if id == "home" {
      return;
    }
    if !app.isEditMode {
      return;
    }
    if confirmed {
      DeleteBlock(app, id);
    }
  }

  /** `Math.max(200, startHeight + dy)`: the new height of a block being resized. */
  function ResizedHeight(startHeight: int, dy: int): (h: int)
    ensures h >= 200 && h >= startHeight + dy
    ensures h == 200 || h == startHeight + dy
    ensures startHeight + dy >= 200 ==> h == startHeight + dy
  {
    Max(200, startHeight + dy)
  }

  /** The pointer position and the block's computed height when the handle was pressed. */
  datatype Resize = Resize(startY: int, startHeight: int)

  /** `startResize`: a resize begins only in edit mode. */
  function StartResize(isEditMode: bool, clientY: int, computedHeight: int): (r: Option<Resize>)
    ensures r.Some? <==> isEditMode
    ensures r.Some? ==> r.value.startY == clientY && r.value.startHeight == computedHeight
  {
    if isEditMode then Some(Resize(clientY, computedHeight)) else None
  }

  /** `doResize`: the block's height follows the pointer, never below 200. */
  method DoResize(app: App, id: string, r: Resize, clientY: int)
    modifies app`blocks
    ensures app.blocks == UpdateFirst(old(app.blocks), BlockId(id), (b: Block) => b.(height := ResizedHeight(r.startHeight, clientY - r.startY)))
  {
    app.blocks := UpdateFirst(app.blocks, BlockId(id), (b: Block) => b.(height := ResizedHeight(r.startHeight, clientY - r.startY)));
  }

  /**
   * `stopResize`: the resize ends (the listeners go, which the returned
   * `None` stands for) and the blocks, with the height the drag left, are
   * saved together with the stickers.
   */
  method StopResize(app: App) returns (r: Option<Resize>)
    modifies app`saved
    ensures r.None?
    ensures app.saved == old(app.saved).(blocks := Stored(app.blocks), stickers := Stored(app.stickers))
  {
    r := None;
    SaveData(app);
  }

  /** The key of `[...blocks].sort((a, b) => a.order - b.order)`. */
  function BlockOrder(b: Block): int { b.order }

  /** The ids `updateSortingPanel` lists: the blocks in `order` order, without `'home'`. */
  function SortingPanel(blocks: seq<Block>): (ids: seq<string>)
    ensures "home" !in ids
  {
    Keys(Filter(Sorting.SortBy(blocks, BlockOrder), (b: Block) => b.id != "home"), (b: Block) => b.id)
  }

  /**
   * The order loop of `handleDragEnd`: the block of the i-th panel item gets
   * order i + 1 (the home block keeps 0); items whose block is gone are
   * skipped.
   */
  method AssignPanelOrders(app: App, panel: seq<string>)
    modifies app`blocks
    ensures app.blocks == AssignOrders(old(app.blocks), panel, 1, (b: Block) => b.id, (b: Block, o: int) => b.(order := o))
  {
    var i := 0;
    while i < |panel|
      invariant 0 <= i <= |panel|
      invariant app.blocks == AssignOrders(old(app.blocks), panel[..i], 1, (b: Block) => b.id, (b: Block, o: int) => b.(order := o))
    {
      assert panel[..i + 1][..i] == panel[..i];
      var k := FindIndex(app.blocks, BlockId(panel[i]));
      if k.Some? {
        app.blocks := app.blocks[k.value := app.blocks[k.value].(order := i + 1)];
      }
      i := i + 1;
    }
    assert panel[..i] == panel;
  }

  /**
   * With unique block ids and a panel listing each id once, a block at
   * position i of the panel gets order i + 1 and a block not in the panel
   * keeps its order and every other field.
   */
  lemma PanelOrders(blocks: seq<Block>, panel: seq<string>, k: nat)
    requires Distinct(Keys(blocks, (b: Block) => b.id)) && Distinct(panel) && k < |blocks|
    ensures var r := AssignOrders(blocks, panel, 1, (b: Block) => b.id, (b: Block, o: int) => b.(order := o));
      var at := IndexOf(panel, blocks[k].id);
      (at.Some? ==> r[k] == blocks[k].(order := at.value + 1))
      && (at.None? ==> r[k] == blocks[k])
  {
    AssignOrdersAt(blocks, panel, 1, (b: Block) => b.id, (b: Block, o: int) => b.(order := o), k);
  }

  /**
   * blocks.js `handleDragEnd` as written: the listener runs unbound, so after
   * the orders are assigned `this.reorderBlocks()` throws and neither the page
   * nor the storage is updated. It reports that it threw.
   */
  method HandleDragEndUnbound(app: App, panel: seq<string>) returns (threw: bool)
    modifies app`blocks
    ensures threw
    ensures app.blocks == AssignOrders(old(app.blocks), panel, 1, (b: Block) => b.id, (b: Block, o: int) => b.(order := o))
  {
    AssignPanelOrders(app, panel);
    threw := true;
  }

  /**
   * script.js `handleDragEnd`, which blocks.js evidently intends too: the
   * orders are assigned and saved.
   */
  method HandleDragEnd(app: App, panel: seq<string>)
    modifies app`blocks, app`saved
    ensures app.blocks == AssignOrders(old(app.blocks), panel, 1, (b: Block) => b.id, (b: Block, o: int) => b.(order := o))
    ensures app.saved == old(app.saved).(blocks := Stored(app.blocks), stickers := Stored(app.stickers))
  {
    AssignPanelOrders(app, panel);
    SaveData(app);
  }

  /**
   * What the unbound handlers lose. With blocks a (order 1) and b (order 2)
   * the panel lists [a, b]; dragging b above a cannot change it, because the
   * unbound `handleDragOver` throws before it moves anything. The drag end
   * then gives every block the order it already had, throws, and saves
   * nothing. Had the item moved, the panel [b, a] would put b first.
   */
  lemma UnboundDragEndLosesOrder()
    ensures var a := Block("a", "A", "#f8f9fa", 1, 400);
      var b := Block("b", "B", "#f8f9fa", 2, 400);
      var blocks := [HomeBlock, a, b];
      SortingPanel(blocks) == ["a", "b"]
      && AssignOrders(blocks, SortingPanel(blocks), 1, (x: Block) => x.id, (x: Block, o: int) => x.(order := o)) == blocks
      && AssignOrders(blocks, ["b", "a"], 1, (x: Block) => x.id, (x: Block, o: int) => x.(order := o))[2].order == 1
  {
    var a := Block("a", "A", "#f8f9fa", 1, 400);
    var b := Block("b", "B", "#f8f9fa", 2, 400);
    var blocks := [HomeBlock, a, b];
    PanelOfTwo(a, b);
    UnchangedPanelKeepsBlocks(blocks);
    DraggedPanelPutsBFirst(blocks);
  }

  /** Assigning the orders of the unchanged panel [a, b] changes no block of the example. */
  lemma UnchangedPanelKeepsBlocks(blocks: seq<Block>)
    requires |blocks| == 3 && blocks[0] == HomeBlock
    requires blocks[1].id == "a" && blocks[1].order == 1 && blocks[2].id == "b" && blocks[2].order == 2
    ensures AssignOrders(blocks, ["a", "b"], 1, (x: Block) => x.id, (x: Block, o: int) => x.(order := o)) == blocks
  {
    UnchangedPanelKeepsOrders(blocks, 0);
    UnchangedPanelKeepsOrders(blocks, 1);
    UnchangedPanelKeepsOrders(blocks, 2);
  }

  /** The panel [b, a] gives b order 1. */
  lemma DraggedPanelPutsBFirst(blocks: seq<Block>)
    requires |blocks| == 3 && blocks[0] == HomeBlock && blocks[1].id == "a" && blocks[2].id == "b"
    ensures AssignOrders(blocks, ["b", "a"], 1, (x: Block) => x.id, (x: Block, o: int) => x.(order := o))[2].order == 1
  {
    assert Keys(blocks, (x: Block) => x.id) == ["home", "a", "b"];
    assert IndexOf(["b", "a"], "b") == Some(0);
    PanelOrders(blocks, ["b", "a"], 2);
  }

  /** The panel of the home block and two blocks in ascending order lists those two. */
  lemma PanelOfTwo(a: Block, b: Block)
    requires a.id != "home" && b.id != "home" && 0 <= a.order <= b.order
    ensures SortingPanel([HomeBlock, a, b]) == [a.id, b.id]
  {
    var blocks := [HomeBlock, a, b];
    assert Sorting.SortedBy(blocks, BlockOrder) by {
      forall i, j | 0 <= i < j < 3 ensures BlockOrder(blocks[i]) <= BlockOrder(blocks[j]) {
      }
    }
    Sorting.SortBySorted(blocks, BlockOrder);
    WithoutHome(a, b);
  }

  lemma WithoutHome(a: Block, b: Block)
    requires a.id != "home" && b.id != "home"
    ensures Keys(Filter([HomeBlock, a, b], (x: Block) => x.id != "home"), (x: Block) => x.id) == [a.id, b.id]
  {
    var notHome := (x: Block) => x.id != "home";
    assert Filter([b], notHome) == [b] by {
      assert [b][1..] == [];
    }
    assert Filter([a, b], notHome) == [a, b] by {
      assert [a, b][1..] == [b];
    }
    assert Filter([HomeBlock, a, b], notHome) == [a, b] by {
      assert [HomeBlock, a, b][1..] == [a, b];
    }
  }

  /** Assigning the orders of the unchanged panel leaves the block at `k` of the example as it was. */
  lemma UnchangedPanelKeepsOrders(blocks: seq<Block>, k: nat)
    requires |blocks| == 3 && blocks[0] == HomeBlock && k < 3
    requires blocks[1].id == "a" && blocks[1].order == 1 && blocks[2].id == "b" && blocks[2].order == 2
    ensures AssignOrders(blocks, ["a", "b"], 1, (x: Block) => x.id, (x: Block, o: int) => x.(order := o))[k] == blocks[k]
  {
    assert Keys(blocks, (x: Block) => x.id) == ["home", "a", "b"];
    PanelOrders(blocks, ["a", "b"], k);
    if k == 1 {
      assert IndexOf(["a", "b"], "a") == Some(0);
    } else if k == 2 {
      assert IndexOf(["a", "b"], "b") == Some(1);
    }
  }

  /**
   * blocks.js `handleDragOver` as written: added unbound, it throws at
   * `this.getDragAfterElement` before the dragged item moves, so the panel
   * stays as it was. It reports that it threw.
   */
  method HandleDragOverUnbound(items: seq<Placed>, dragging: nat, y: int) returns (threw: bool, r: seq<Placed>)
    requires dragging < |items|
    ensures threw && r == items
  {
    threw := true;
    r := items;
  }

  /**
   * script.js `handleDragOver`, which blocks.js evidently intends too: the
   * dragged item is taken out and put back before the item
   * `getDragAfterElement` picks among the others, or last when there is
   * none. The other items keep their order.
   */
  method HandleDragOver(items: seq<Placed>, dragging: nat, y: int) returns (r: seq<Placed>)
    requires dragging < |items|
    ensures multiset(r) == multiset(items)
    ensures var others := RemoveAt(items, dragging);
      var at := DragAfter(others, y);
      var pos := if at.Some? then at.value else |others|;
      pos < |r| && r[pos] == items[dragging] && RemoveAt(r, pos) == others
  {
    var others := RemoveAt(items, dragging);
    RemoveAtMultiset(items, dragging);
    var after := GetDragAfterElement(others, y);
    var pos := if after.Some? then after.value else |others|;
    r := others[..pos] + [items[dragging]] + others[pos..];
    InsertAtRemoves(others, pos, items[dragging]);
  }

  lemma RemoveAtMultiset<T>(s: seq<T>, i: nat)
    requires i < |s|
    ensures multiset(RemoveAt(s, i)) + multiset{s[i]} == multiset(s)
  {
    assert s == s[..i] + [s[i]] + s[i + 1..];
  }

  lemma InsertAtRemoves<T>(s: seq<T>, pos: nat, x: T)
    requires pos <= |s|
    ensures var r := s[..pos] + [x] + s[pos..];
      pos < |r| && r[pos] == x && RemoveAt(r, pos) == s && multiset(r) == multiset(s) + multiset{x}
  {
    var r := s[..pos] + [x] + s[pos..];
    assert s == s[..pos] + s[pos..];
    assert r[..pos] == s[..pos];
    assert r[pos + 1..] == s[pos..];
  }

  /**
   * `getDragAfterElement(container, y)`: of the panel items (their boxes, in
   * list order) whose midpoint lies below `y`, the one whose midpoint is
   * closest; the first of them on a tie; `None` when `y` is below every
   * midpoint. Midpoints are compared doubled (`top + bottom` against `2y`) so
   * that no halving is needed.
   */
  function DragAfter(items: seq<Placed>, y: int): (r: Option<nat>)
    ensures r.Some? ==> r.value < |items| && 2 * y < Mid2(items[r.value])
    ensures r.Some? ==> forall j :: 0 <= j < |items| && 2 * y < Mid2(items[j]) ==> Mid2(items[r.value]) <= Mid2(items[j])
    ensures r.Some? ==> forall j :: 0 <= j < r.value && 2 * y < Mid2(items[j]) ==> Mid2(items[r.value]) < Mid2(items[j])
    ensures r.None? <==> forall j :: 0 <= j < |items| ==> Mid2(items[j]) <= 2 * y
    decreases |items|
  {
    if items == [] then None
    else
      var n := |items| - 1;
      var prev := DragAfter(items[..n], y);
      var m := Mid2(items[n]);
      if 2 * y < m && (prev.None? || m < Mid2(items[prev.value])) then Some(n) else prev
  }

  /** Twice the vertical midpoint of an item's box. */
  function Mid2(p: Placed): int { p.rect.top + p.rect.bottom }

  /** The `reduce` of `getDragAfterElement`, with its running closest offset. */
  method GetDragAfterElement(items: seq<Placed>, y: int) returns (closest: Option<nat>)
    ensures closest == DragAfter(items, y)
  {
    closest := None;
    var i := 0;
    while i < |items|
      invariant 0 <= i <= |items|
      invariant closest == DragAfter(items[..i], y)
    {
      DragAfterStep(items, i, y);
      var m := Mid2(items[i]);
      if 2 * y < m && (closest.None? || m < Mid2(items[closest.value])) {
        closest := Some(i);
      }
      i := i + 1;
    }
    assert items[..i] == items;
  }

  /** One more item: it becomes the choice when its midpoint is below `y` and closer than the choice so far. */
  lemma DragAfterStep(items: seq<Placed>, i: nat, y: int)
    requires i < |items|
    ensures var prev := DragAfter(items[..i], y);
      var m := Mid2(items[i]);
      DragAfter(items[..i + 1], y) == if 2 * y < m && (prev.None? || m < Mid2(items[prev.value])) then Some(i) else prev
  {
    assert items[..i + 1][..i] == items[..i];
  }

  /** The ids of `sorted` that have an element on the page, in that order. */
  function PresentIds(sorted: seq<Block>, elements: seq<string>): (ids: seq<string>)
    ensures forall k :: 0 <= k < |ids| ==> ids[k] in elements
    decreases |sorted|
  {
    if sorted == [] then []
    else
      var n := |sorted| - 1;
      PresentIds(sorted[..n], elements) + (if sorted[n].id in elements then [sorted[n].id] else [])
  }

  /** The ids `PresentIds` keeps are ids of blocks in `sorted`. */
  lemma {:induction false} PresentIdsFrom(sorted: seq<Block>, elements: seq<string>)
    ensures forall x :: x in PresentIds(sorted, elements) ==> x in Keys(sorted, (b: Block) => b.id)
    decreases |sorted|
  {
    if sorted != [] {
      var n := |sorted| - 1;
      PresentIdsFrom(sorted[..n], elements);
      assert Keys(sorted[..n], (b: Block) => b.id) == Keys(sorted, (b: Block) => b.id)[..n];
    }
  }

  /**
   * `reorderBlocks`: each block, in ascending order, has its element (if any)
   * moved to the end of the container, so the container ends with the
   * blocks' elements in ascending order and keeps the same elements.
   */
  method ReorderBlocks(elements: seq<string>, blocks: seq<Block>) returns (r: seq<string>)
    requires Distinct(elements) && Distinct(Keys(blocks, (b: Block) => b.id))
    ensures multiset(r) == multiset(elements)
    ensures var moved := PresentIds(Sorting.SortBy(blocks, BlockOrder), elements);
      |moved| <= |r| && r[|r| - |moved|..] == moved
  {
    var sorted := Sorting.SortBy(blocks, BlockOrder);
    DistinctAfterPermutation(blocks, sorted);
    var rest := elements;
    var moved: seq<string> := [];
    var i := 0;
    while i < |sorted|
      invariant 0 <= i <= |sorted|
      invariant moved == PresentIds(sorted[..i], elements)
      invariant multiset(rest + moved) == multiset(elements)
      invariant Distinct(rest + moved)
    {
      rest, moved := ReorderStep(sorted, elements, rest, moved, i);
      i := i + 1;
    }
    assert sorted[..i] == sorted;
    r := rest + moved;
    assert r[|r| - |moved|..] == moved;
  }

  /** The body of the `forEach` in `reorderBlocks` for the block at index `i` of the sorted list. */
  method ReorderStep(sorted: seq<Block>, elements: seq<string>, rest: seq<string>, moved: seq<string>, i: nat)
    returns (rest': seq<string>, moved': seq<string>)
    requires i < |sorted| && Distinct(Keys(sorted, (b: Block) => b.id))
    requires moved == PresentIds(sorted[..i], elements)
    requires multiset(rest + moved) == multiset(elements) && Distinct(rest + moved)
    ensures moved' == PresentIds(sorted[..i + 1], elements)
    ensures multiset(rest' + moved') == multiset(elements) && Distinct(rest' + moved')
  {
    var ids := Keys(sorted, (b: Block) => b.id);
    assert sorted[..i + 1][..i] == sorted[..i];
    PresentIdsFrom(sorted[..i], elements);
    assert Keys(sorted[..i], (b: Block) => b.id) == ids[..i];
    var x := sorted[i].id;
    assert x == ids[i];
    assert x !in moved;
    if x in rest {
      assert x in elements by {
        assert x in multiset(rest + moved);
      }
      rest', moved' := MoveToEnd(rest, moved, x);
    } else {
      NotInElements(rest, moved, elements, x);
      rest', moved' := rest, moved;
    }
  }

  /** One `appendChild` of an element already in the container: it leaves its place and goes last. */
  method MoveToEnd(rest: seq<string>, moved: seq<string>, x: string) returns (rest': seq<string>, moved': seq<string>)
    requires Distinct(rest + moved) && x in rest
    ensures moved' == moved + [x]
    ensures multiset(rest' + moved') == multiset(rest + moved)
    ensures Distinct(rest' + moved')
  {
    var j := IndexOf(rest, x).value;
    rest' := RemoveAt(rest, j);
    moved' := moved + [x];
    DistinctRemoveAt(rest + moved, j);
    assert rest' + moved == RemoveAt(rest + moved, j);
    assert rest == rest[..j] + [x] + rest[j + 1..];
    assert rest' + moved' == rest[..j] + rest[j + 1..] + moved + [x];
  }

  /** An id that is not in the container was never an element. */
  lemma NotInElements(rest: seq<string>, moved: seq<string>, elements: seq<string>, x: string)
    requires multiset(rest + moved) == multiset(elements) && x !in rest
    requires forall y :: y in moved ==> y != x
    ensures x !in elements
  {
    assert x !in rest + moved;
    assert multiset(elements)[x] == 0;
  }

  lemma DistinctRemoveAt(s: seq<string>, j: nat)
    requires Distinct(s) && j < |s|
    ensures Distinct(RemoveAt(s, j)) && s[j] !in RemoveAt(s, j)
  {
    var r := RemoveAt(s, j);
    forall k | 0 <= k < |r| ensures r[k] != s[j] {
      if k < j { assert r[k] == s[k]; } else { assert r[k] == s[k + 1]; }
    }
  }

  /** An element of a sequence with distinct keys occurs once. */
  lemma OccursOnce(a: seq<Block>, p: nat)
    requires Distinct(Keys(a, (x: Block) => x.id)) && p < |a|
    ensures multiset(a)[a[p]] == 1
  {
    var ka := Keys(a, (x: Block) => x.id);
    assert a == a[..p] + [a[p]] + a[p + 1..];
    forall k | 0 <= k < |a| && k != p ensures a[k] != a[p] {
      assert ka[k] != ka[p];
    }
    assert a[p] !in a[..p];
    assert a[p] !in a[p + 1..];
  }

  /** An element at two positions occurs at least twice. */
  lemma OccursTwice(b: seq<Block>, i: nat, j: nat)
    requires i < j < |b| && b[i] == b[j]
    ensures multiset(b)[b[i]] >= 2
  {
    assert b == b[..i] + [b[i]] + b[i + 1..j] + [b[j]] + b[j + 1..];
  }

  lemma DistinctAfterPermutation(a: seq<Block>, b: seq<Block>)
    requires Distinct(Keys(a, (x: Block) => x.id)) && multiset(a) == multiset(b)
    ensures Distinct(Keys(b, (x: Block) => x.id))
  {
    var kb := Keys(b, (x: Block) => x.id);
    var ka := Keys(a, (x: Block) => x.id);
    forall i, j | 0 <= i < j < |kb| ensures kb[i] != kb[j] {
      if kb[i] == kb[j] {
        assert b[i] in multiset(a) && b[j] in multiset(a);
        var p :| 0 <= p < |a| && a[p] == b[i];
        var q :| 0 <= q < |a| && a[q] == b[j];
        if p == q {
          OccursOnce(a, p);
          OccursTwice(b, i, j);
        }
      }
    }
  }

  /**
   * `addNewBlock`, with the generated id as a parameter: outside edit mode
   * nothing happens; otherwise a block titled '新项目块' with colour
   * '#f8f9fa', height 400 and order equal to the number of blocks before it
   * is appended and saved.
   */
  method AddNewBlock(app: App, id: string) returns (added: Option<Block>)
    modifies app`blocks, app`saved
    ensures !app.isEditMode ==> added.None? && app.blocks == old(app.blocks) && app.saved == old(app.saved)
    ensures app.isEditMode ==>
      added == Some(Block(id, "新项目块", "#f8f9fa", |old(app.blocks)|, 400))
      && app.blocks == old(app.blocks) + [added.value]
      && app.saved == old(app.saved).(blocks := Stored(app.blocks), stickers := Stored(app.stickers))
  {
    if !app.isEditMode {
      return None;
    }
    var b := Block(id, "新项目块", "#f8f9fa", |app.blocks|, 400);
    app.blocks := app.blocks + [b];
    SaveData(app);
    added := Some(b);
  }

  /**
   * The fields an `updates` object passed to `updateBlockData` may carry.
   * `Object.assign` would also copy an `id`, but no caller in these files
   * passes one, so a patch here never carries it.
   */
  datatype BlockPatch = BlockPatch(title: Option<string>, color: Option<string>, order: Option<int>, height: Option<int>)

  /** `Object.assign(block, updates)`. */
  function AssignBlock(b: Block, p: BlockPatch): (r: Block)
    ensures r.id == b.id
    ensures r.title == (if p.title.Some? then p.title.value else b.title)
    ensures r.color == (if p.color.Some? then p.color.value else b.color)
    ensures r.order == (if p.order.Some? then p.order.value else b.order)
    ensures r.height == (if p.height.Some? then p.height.value else b.height)
  {
    Block(b.id,
          if p.title.Some? then p.title.value else b.title,
          if p.color.Some? then p.color.value else b.color,
          if p.order.Some? then p.order.value else b.order,
          if p.height.Some? then p.height.value else b.height)
  }

  /** `updateBlockData(id, updates)`: merges into the first block with that id and saves; false when there is none. */
  method UpdateBlockData(app: App, id: string, p: BlockPatch) returns (found: bool)
    modifies app`blocks, app`saved
    ensures found <==> FindIndex(old(app.blocks), BlockId(id)).Some?
    ensures app.blocks == UpdateFirst(old(app.blocks), BlockId(id), (b: Block) => AssignBlock(b, p))
    ensures found ==> app.saved == old(app.saved).(blocks := Stored(app.blocks), stickers := Stored(app.stickers))
    ensures !found ==> app.saved == old(app.saved)
  {
    var k := FindIndex(app.blocks, BlockId(id));
    if k.None? {
      return false;
    }
    app.blocks := app.blocks[k.value := AssignBlock(app.blocks[k.value], p)];
    SaveData(app);
    found := true;
  }
}
