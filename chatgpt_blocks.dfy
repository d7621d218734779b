/**
 * The block editor of the chatgpt variant: the side panel that lists the
 * blocks and numbers them, the drag-and-drop that moves a panel item to the
 * placeholder and then re-appends the blocks in the panel's order, the
 * bottom handle that sets a block's height (never below 200 pixels), and
 * deleting and creating blocks.
 */
module ChatgptBlocks {
  import opened Wrappers
  import opened JsText
  import opened Records

  /**
   * A `<section class="block">`: the element itself (a serial standing for
   * its identity), the text of its first `h3` if it has one, and its inline
   * height in pixels if one was set.
   */
  datatype Block = Block(serial: nat, title: Option<string>, height: Option<int>)

  /** A `.panel-item`: its text and its `data-index` attribute. */
  datatype Item = Item(text: string, index: string)

  /** A resize in progress: the block whose handle was pressed, the pointer's `clientY` and the block's `offsetHeight` then. */
  datatype Resize = Resize(serial: nat, startY: int, startH: int)

  function Serial(b: Block): nat { b.serial }

  const NewTitle: string := "新项目块"
  const Untitled: string := "未命名 "
  const MinHeight: int := 200

  // ---------------------------------------------------------------------
  // The panel.
  // ---------------------------------------------------------------------

  /** The item text: the `h3` text, or `未命名 n` (counting from 1) when that is missing or empty. */
  function Label(b: Block, index: nat): string {
    if b.title.Some? && b.title.value != "" then b.title.value else Untitled + Decimal(index + 1)
  }

  /** Untitled blocks at different positions are told apart by their numbers. */
  lemma UntitledLabelsDiffer(b: Block, c: Block, i: nat, j: nat)
    requires i != j && (b.title.None? || b.title.value == "") && (c.title.None? || c.title.value == "")
    ensures Label(b, i) != Label(c, j)
  {
    DecimalValue(i + 1);
    DecimalValue(j + 1);
    var x, y := Untitled + Decimal(i + 1), Untitled + Decimal(j + 1);
    assert x[|Untitled|..] == Decimal(i + 1);
    assert y[|Untitled|..] == Decimal(j + 1);
  }

  /**
   * `Number(s)` on the strings `data-index` holds, which are the decimal
   * digits of a whole number; a string that is not a run of digits indexes
   * no block and is read as -1.
   */
  function NumberOf(s: string): (n: int)
    ensures n >= -1
  {
    if s != [] && forall i :: 0 <= i < |s| ==> IsDigit(s[i]) then DigitsValue(s, false) else -1
  }

  /** The index written into `data-index` reads back as the same number. */
  lemma NumberOfDecimal(n: nat)
    ensures NumberOf(Decimal(n)) == n
  {
    DecimalValue(n);
  }

  /** The items `refreshPanelList` builds: one per block, in page order, numbered from 0. */
  function PanelFor(blocks: seq<Block>): (items: seq<Item>)
    ensures |items| == |blocks|
    ensures forall i :: 0 <= i < |blocks| ==> items[i] == Item(Label(blocks[i], i), Decimal(i))
  {
    seq(|blocks|, i requires 0 <= i < |blocks| => Item(Label(blocks[i], i), Decimal(i)))
  }

  function Range(n: nat): (r: seq<int>)
    ensures |r| == n && forall i :: 0 <= i < n ==> r[i] == i
  {
    seq(n, i requires 0 <= i < n => i)
  }

  /** The numbers the rebuild reads off the items, in panel order. */
  function Indexes(items: seq<Item>): (r: seq<int>)
    ensures |r| == |items| && forall i :: 0 <= i < |items| ==> r[i] == NumberOf(items[i].index)
  {
    seq(|items|, i requires 0 <= i < |items| => NumberOf(items[i].index))
  }

  /** A fresh panel reads back as 0, 1, ..., n - 1. */
  lemma PanelNumbersInOrder(blocks: seq<Block>)
    ensures Indexes(PanelFor(blocks)) == Range(|blocks|)
  {
    forall i | 0 <= i < |blocks| ensures Indexes(PanelFor(blocks))[i] == i {
      NumberOfDecimal(i);
    }
  }

  // ---------------------------------------------------------------------
  // Moving a panel item to the placeholder.
  // ---------------------------------------------------------------------

  /** Where the moved item ends up once it has left its own place: the placeholder's gap, one less if that gap was after it. */
  function Gap(d: nat, g: nat): nat {
    if d < g then g - 1 else g
  }

  /**
   * `insertBefore(dragEl, placeholder)` with the dragged item at `d` and the
   * placeholder in gap `g` (just before item `g`): the item lands at the
   * placeholder and the others keep their order.
   */
  function MoveItem<T>(s: seq<T>, d: nat, g: nat): (r: seq<T>)
    requires d < |s| && g <= |s|
    ensures |r| == |s| && multiset(r) == multiset(s)
    ensures r[Gap(d, g)] == s[d]
    ensures r[..Gap(d, g)] + r[Gap(d, g) + 1..] == s[..d] + s[d + 1..]
  {
    var rest := s[..d] + s[d + 1..];
    var at := Gap(d, g);
    var r := rest[..at] + [s[d]] + rest[at..];
    assert s == s[..d] + [s[d]] + s[d + 1..];
    assert rest == rest[..at] + rest[at..];
    assert r[..at] == rest[..at] && r[at + 1..] == rest[at..];
    calc {
      multiset(r);
      multiset(rest[..at]) + multiset{s[d]} + multiset(rest[at..]);
      multiset(rest[..at]) + multiset(rest[at..]) + multiset{s[d]};
      multiset(rest) + multiset{s[d]};
      multiset(s[..d]) + multiset(s[d + 1..]) + multiset{s[d]};
      multiset(s[..d]) + multiset{s[d]} + multiset(s[d + 1..]);
      multiset(s);
    }
    r
  }

  /** The position in `s` that position `i` of the moved sequence comes from. */
  function MoveSource(d: nat, g: nat, i: nat): nat {
    var at := Gap(d, g);
    if i == at then d
    else
      var j := if i < at then i else i - 1;
      if j < d then j else j + 1
  }

  lemma MoveItemAt<T>(s: seq<T>, d: nat, g: nat, i: nat)
    requires d < |s| && g <= |s| && i < |s|
    ensures MoveSource(d, g, i) < |s| && MoveItem(s, d, g)[i] == s[MoveSource(d, g, i)]
  {
    var r, at := MoveItem(s, d, g), Gap(d, g);
    var rest := s[..d] + s[d + 1..];
    assert r[..at] + r[at + 1..] == rest;
    if i < at {
      assert r[i] == (r[..at] + r[at + 1..])[i];
    } else if i > at {
      assert r[i] == (r[..at] + r[at + 1..])[i - 1];
    }
  }

  // ---------------------------------------------------------------------
  // Re-appending the blocks.
  // ---------------------------------------------------------------------

  function Other(b: Block): Block -> bool {
    (x: Block) => x.serial != b.serial
  }

  /** `content.appendChild(b)`: the block leaves its place and goes last. */
  function MoveToEnd(c: seq<Block>, b: Block): (r: seq<Block>)
    ensures |r| >= 1 && r[|r| - 1] == b
  {
    Filter(c, Other(b)) + [b]
  }

  /**
   * The page's blocks after `rebuildBlocksFromPanel` appended, for each
   * number of `order` in turn, the block the list `snapshot` holds there;
   * a number with no block there is skipped.
   */
  function Rebuilt(c: seq<Block>, snapshot: seq<Block>, order: seq<int>): seq<Block>
    decreases |order|
  {
    if |order| == 0 then c
    else
      var prev := Rebuilt(c, snapshot, order[..|order| - 1]);
      var idx := order[|order| - 1];
      if 0 <= idx < |snapshot| then MoveToEnd(prev, snapshot[idx]) else prev
  }

  /** Every block of `part` has a serial other than `b`'s, so filtering `b` out keeps them all. */
  lemma FilterKeepsOthers(part: seq<Block>, b: Block)
    requires forall i :: 0 <= i < |part| ==> part[i].serial != b.serial
    ensures Filter(part, Other(b)) == part
  {
    FilterAll(part, Other(b));
  }

  /** The blocks other than the one at j, in their order. */
  lemma FilterOutOne(c: seq<Block>, j: nat)
    requires DistinctBy(c, Serial) && j < |c|
    ensures Filter(c, Other(c[j])) == c[..j] + c[j + 1..]
  {
    var b := c[j];
    var pre, post := c[..j], c[j + 1..];
    forall i | 0 <= i < |pre| ensures pre[i].serial != b.serial {
      assert pre[i] == c[i] && Serial(c[i]) != Serial(c[j]);
    }
    forall i | 0 <= i < |post| ensures post[i].serial != b.serial {
      assert post[i] == c[j + 1 + i] && Serial(c[j]) != Serial(c[j + 1 + i]);
    }
    assert c == (pre + [b]) + post;
    FilterAppend(pre + [b], post, Other(b));
    FilterAppend(pre, [b], Other(b));
    FilterKeepsOthers(pre, b);
    FilterKeepsOthers(post, b);
    FilterDropsOne(b);
    assert Filter(pre + [b], Other(b)) == pre;
  }

  lemma FilterDropsOne(b: Block)
    ensures Filter([b], Other(b)) == []
  {
    assert [b][1..] == [];
  }

  /** Appending a block of the page reorders the blocks and loses or copies none. */
  lemma MoveToEndPermutes(c: seq<Block>, b: Block)
    requires DistinctBy(c, Serial) && b in c
    ensures multiset(MoveToEnd(c, b)) == multiset(c) && DistinctBy(MoveToEnd(c, b), Serial)
  {
    var j :| 0 <= j < |c| && c[j] == b;
    FilterOutOne(c, j);
    var r := MoveToEnd(c, b);
    assert r == c[..j] + c[j + 1..] + [b];
    assert c == c[..j] + [b] + c[j + 1..];
    assert multiset(r) == multiset(c);
    PermutationDistinctBy(c, r, Serial);
  }

  /** One more panel item: the rebuild over `order[..i + 1]` is one move after the rebuild over `order[..i]`. */
  lemma RebuiltStep(c: seq<Block>, snapshot: seq<Block>, order: seq<int>, i: nat, prev: seq<Block>, next: seq<Block>)
    requires i < |order| && prev == Rebuilt(c, snapshot, order[..i])
    requires next == if 0 <= order[i] < |snapshot| then MoveToEnd(prev, snapshot[order[i]]) else prev
    ensures next == Rebuilt(c, snapshot, order[..i + 1])
  {
    assert order[..i + 1][..i] == order[..i];
  }

  /** Reordering keeps every serial below the next one to hand out. */
  lemma PermutationSerials(s: seq<Block>, r: seq<Block>, bound: nat)
    requires multiset(r) == multiset(s) && forall i :: 0 <= i < |s| ==> s[i].serial < bound
    ensures forall i :: 0 <= i < |r| ==> r[i].serial < bound
  {
    forall i | 0 <= i < |r| ensures r[i].serial < bound {
      assert r[i] in multiset(s);
    }
  }

  /** Whatever the panel holds, the rebuild loses no block and copies none. */
  lemma {:induction false} RebuiltPermutes(c: seq<Block>, snapshot: seq<Block>, order: seq<int>)
    requires DistinctBy(c, Serial) && forall i :: 0 <= i < |snapshot| ==> snapshot[i] in c
    ensures multiset(Rebuilt(c, snapshot, order)) == multiset(c)
    ensures DistinctBy(Rebuilt(c, snapshot, order), Serial)
    decreases |order|
  {
    if order != [] {
      var init := order[..|order| - 1];
      RebuiltPermutes(c, snapshot, init);
      var prev := Rebuilt(c, snapshot, init);
      var idx := order[|order| - 1];
      if 0 <= idx < |snapshot| {
        assert snapshot[idx] in multiset(prev);
        MoveToEndPermutes(prev, snapshot[idx]);
      }
    }
  }

  predicate InRange(order: seq<int>, n: nat) {
    forall i :: 0 <= i < |order| ==> 0 <= order[i] < n
  }

  /** `order` lists 0, ..., n - 1, each once, in some order. */
  predicate IsPermutation(order: seq<int>, n: nat) {
    multiset(order) == multiset(Range(n))
  }

  function Id(x: int): int { x }

  lemma PermutationFacts(order: seq<int>, n: nat)
    requires IsPermutation(order, n)
    ensures |order| == n && InRange(order, n) && DistinctBy(order, Id)
    ensures forall j :: 0 <= j < n ==> j in order
  {
    assert |order| == |multiset(order)| == |multiset(Range(n))| == n;
    forall i | 0 <= i < |order| ensures 0 <= order[i] < n {
      assert order[i] in multiset(Range(n));
    }
    assert DistinctBy(Range(n), Id);
    PermutationDistinctBy(Range(n), order, Id);
    forall j | 0 <= j < n ensures j in order {
      assert Range(n)[j] == j;
      assert j in multiset(order);
    }
  }

  /** The serials of the blocks `order` names. */
  function Taken(s: seq<Block>, order: seq<int>): set<nat>
    requires InRange(order, |s|)
  {
    set i | 0 <= i < |order| :: s[order[i]].serial
  }

  function Untaken(taken: set<nat>): Block -> bool {
    (x: Block) => x.serial !in taken
  }

  function Picked(s: seq<Block>, order: seq<int>): (r: seq<Block>)
    requires InRange(order, |s|)
    ensures |r| == |order| && forall i :: 0 <= i < |order| ==> r[i] == s[order[i]]
  {
    seq(|order|, i requires 0 <= i < |order| => s[order[i]])
  }

  /**
   * After the first k numbers the blocks not yet appended are still in
   * front, in their old order, and the appended ones follow in panel order.
   */
  lemma {:induction false} RebuiltPrefix(s: seq<Block>, order: seq<int>, k: nat)
    requires DistinctBy(s, Serial) && InRange(order, |s|) && DistinctBy(order, Id) && k <= |order|
    ensures Rebuilt(s, s, order[..k]) == Filter(s, Untaken(Taken(s, order[..k]))) + Picked(s, order[..k])
    decreases k
  {
    var p := order[..k];
    if k == 0 {
      assert p == [];
      assert Taken(s, p) == {};
      FilterAll(s, Untaken(Taken(s, p)));
    } else {
      var q := order[..k - 1];
      assert p[..k - 1] == q && p[k - 1] == order[k - 1];
      RebuiltPrefix(s, order, k - 1);
      var b := s[order[k - 1]];
      var prev := Filter(s, Untaken(Taken(s, q))) + Picked(s, q);
      RebuiltStep(s, s, order, k - 1, prev, MoveToEnd(prev, b));
      PickedBefore(s, order, k - 1);
      PrefixStep(s, order, k - 1);
      MoveToEndStep(s, Taken(s, q), Picked(s, q), b);
    }
  }

  /** Taking one more number of the panel adds its block to the taken ones and to the picked ones. */
  lemma PrefixStep(s: seq<Block>, order: seq<int>, k: nat)
    requires InRange(order, |s|) && k < |order|
    ensures Taken(s, order[..k + 1]) == Taken(s, order[..k]) + {s[order[k]].serial}
    ensures Picked(s, order[..k + 1]) == Picked(s, order[..k]) + [s[order[k]]]
  {
    var p, q := order[..k + 1], order[..k];
    forall x | x in Taken(s, p) ensures x in Taken(s, q) + {s[order[k]].serial} {
      var i :| 0 <= i < |p| && s[p[i]].serial == x;
      if i < k {
        assert s[q[i]].serial == x;
      }
    }
    forall x | x in Taken(s, q) ensures x in Taken(s, p) {
      var i :| 0 <= i < |q| && s[q[i]].serial == x;
      assert s[p[i]].serial == x;
    }
    assert s[p[k]].serial in Taken(s, p);
  }

  /** Appending the block named next, when it is not among those already appended. */
  lemma MoveToEndStep(s: seq<Block>, taken: set<nat>, picked: seq<Block>, b: Block)
    requires forall i :: 0 <= i < |picked| ==> picked[i].serial != b.serial
    ensures MoveToEnd(Filter(s, Untaken(taken)) + picked, b) == Filter(s, Untaken(taken + {b.serial})) + (picked + [b])
  {
    var front := Filter(s, Untaken(taken));
    var rest := Filter(s, Untaken(taken + {b.serial}));
    assert rest + picked + [b] == rest + (picked + [b]);
    calc {
      Filter(front + picked, Other(b));
      { FilterAppend(front, picked, Other(b)); }
      Filter(front, Other(b)) + Filter(picked, Other(b));
      { FilterFilter(s, Untaken(taken), Other(b), Untaken(taken + {b.serial})); }
      Filter(s, Untaken(taken + {b.serial})) + Filter(picked, Other(b));
      { FilterKeepsOthers(picked, b); }
      Filter(s, Untaken(taken + {b.serial})) + picked;
    }
  }

  /** The blocks named before position k are other blocks than the one named at k. */
  lemma PickedBefore(s: seq<Block>, order: seq<int>, k: nat)
    requires DistinctBy(s, Serial) && InRange(order, |s|) && DistinctBy(order, Id) && k < |order|
    ensures forall i :: 0 <= i < k ==> s[order[i]].serial != s[order[k]].serial
  {
    forall i | 0 <= i < k ensures s[order[i]].serial != s[order[k]].serial {
      assert Id(order[i]) != Id(order[k]);
      if order[i] < order[k] {
        assert Serial(s[order[i]]) != Serial(s[order[k]]);
      } else {
        assert Serial(s[order[k]]) != Serial(s[order[i]]);
      }
    }
  }

  /**
   * When the panel lists every block once, the rebuild puts the blocks in
   * exactly the panel's order: position i holds the block the i-th item
   * names.
   */
  lemma RebuildFollowsPanel(s: seq<Block>, order: seq<int>)
    requires DistinctBy(s, Serial) && IsPermutation(order, |s|)
    ensures var r := Rebuilt(s, s, order);
      |r| == |s| == |order| && forall i :: 0 <= i < |s| ==> 0 <= order[i] < |s| && r[i] == s[order[i]]
  {
    PermutationFacts(order, |s|);
    RebuiltAll(s, order);
  }

  lemma RebuiltAll(s: seq<Block>, order: seq<int>)
    requires DistinctBy(s, Serial) && InRange(order, |s|) && DistinctBy(order, Id)
    requires forall j :: 0 <= j < |s| ==> j in order
    ensures Rebuilt(s, s, order) == Picked(s, order)
  {
    RebuiltPrefix(s, order, |order|);
    assert order[..|order|] == order;
    AllTaken(s, order);
    FilterNone(s, Untaken(Taken(s, order)));
  }

  /** When every position of `s` is named, every block is taken. */
  lemma AllTaken(s: seq<Block>, order: seq<int>)
    requires InRange(order, |s|) && forall j :: 0 <= j < |s| ==> j in order
    ensures forall i :: 0 <= i < |s| ==> !Untaken(Taken(s, order))(s[i])
  {
    forall i | 0 <= i < |s| ensures s[i].serial in Taken(s, order) {
      assert i in order;
      var k :| 0 <= k < |order| && order[k] == i;
      assert s[order[k]].serial in Taken(s, order);
    }
  }

  /**
   * Dropping item d of a fresh panel into gap g moves block d to the same
   * place in the page, and every other block keeps its order.
   */
  lemma DropMovesBlock(blocks: seq<Block>, d: nat, g: nat)
    requires DistinctBy(blocks, Serial) && d < |blocks| && g <= |blocks|
    ensures Rebuilt(blocks, blocks, Indexes(MoveItem(PanelFor(blocks), d, g))) == MoveItem(blocks, d, g)
  {
    var order := MoveItem(Range(|blocks|), d, g);
    DropOrder(blocks, d, g);
    PermutationFacts(order, |blocks|);
    RebuiltAll(blocks, order);
    MovedPicks(blocks, d, g);
  }

  /** Picking the blocks in the moved order of their positions is moving the blocks. */
  lemma MovedPicks(blocks: seq<Block>, d: nat, g: nat)
    requires d < |blocks| && g <= |blocks|
    ensures InRange(MoveItem(Range(|blocks|), d, g), |blocks|)
    ensures Picked(blocks, MoveItem(Range(|blocks|), d, g)) == MoveItem(blocks, d, g)
  {
    var n := |blocks|;
    var order := MoveItem(Range(n), d, g);
    forall i | 0 <= i < n ensures order[i] == MoveSource(d, g, i) < n {
      MoveItemAt(Range(n), d, g, i);
    }
    forall i | 0 <= i < n ensures Picked(blocks, order)[i] == MoveItem(blocks, d, g)[i] {
      MoveItemAt(blocks, d, g, i);
    }
  }

  /** The numbers a fresh panel reads back after the move are the moved positions. */
  lemma DropOrder(blocks: seq<Block>, d: nat, g: nat)
    requires d < |blocks| && g <= |blocks|
    ensures Indexes(MoveItem(PanelFor(blocks), d, g)) == MoveItem(Range(|blocks|), d, g)
    ensures IsPermutation(MoveItem(Range(|blocks|), d, g), |blocks|)
  {
    var n := |blocks|;
    var items := PanelFor(blocks);
    var order := Indexes(MoveItem(items, d, g));
    PanelNumbersInOrder(blocks);
    forall i | 0 <= i < n ensures order[i] == MoveItem(Range(n), d, g)[i] {
      MoveItemAt(items, d, g, i);
      MoveItemAt(Range(n), d, g, i);
      assert Indexes(items)[MoveSource(d, g, i)] == MoveSource(d, g, i);
    }
  }

  // ---------------------------------------------------------------------
  // Heights and deletion.
  // ---------------------------------------------------------------------

  /** `Math.max(200, startH + delta)`: the pointer's travel added to the start height, and never less than 200. */
  function NewHeight(startH: int, startY: int, clientY: int): (h: int)
    ensures h >= MinHeight && h >= startH + (clientY - startY)
    ensures h == MinHeight || h == startH + (clientY - startY)
  {
    if startH + (clientY - startY) > MinHeight then startH + (clientY - startY) else MinHeight
  }

  /** `block.style.height` set on the block element with that serial, wherever it is now. */
  function WithHeight(blocks: seq<Block>, serial: nat, h: int): (r: seq<Block>)
    ensures |r| == |blocks|
    ensures forall i :: 0 <= i < |blocks| ==>
      r[i] == (if blocks[i].serial == serial then blocks[i].(height := Some(h)) else blocks[i])
  {
    seq(|blocks|, i requires 0 <= i < |blocks| =>
      if blocks[i].serial == serial then blocks[i].(height := Some(h)) else blocks[i])
  }

  /** `block.remove()`: the chosen block goes, every other block stays. */
  lemma DeleteRemovesOnlyChosen(s: seq<Block>, k: nat)
    requires DistinctBy(s, Serial) && k < |s|
    ensures forall b :: b in s[..k] + s[k + 1..] <==> b in s && b.serial != s[k].serial
  {
    assert s == s[..k] + [s[k]] + s[k + 1..];
    forall b | b in s[..k] + s[k + 1..] ensures b.serial != s[k].serial {
      var j :| 0 <= j < |s[..k] + s[k + 1..]| && (s[..k] + s[k + 1..])[j] == b;
      if j < k {
        assert b == s[j] && Serial(s[j]) != Serial(s[k]);
      } else {
        assert b == s[j + 1] && Serial(s[k]) != Serial(s[j + 1]);
      }
    }
  }

  // ---------------------------------------------------------------------
  // The editor.
  // ---------------------------------------------------------------------

  /**
   * The page's blocks in document order, the panel's items, the closure
   * state of the panel's drag-and-drop (`dragEl` as a position in the panel,
   * and the placeholder's gap), the resize that owns `document.onmousemove`
   * and the serial the next new block gets.
   */
  class BlockEditor {
    var blocks: seq<Block>
    var items: seq<Item>
    var dragging: Option<nat>
    var gap: Option<nat>
    var resizing: Option<Resize>
    var nextSerial: nat

    ghost predicate Valid()
      reads this
    {
      DistinctBy(blocks, Serial)
      && (forall i :: 0 <= i < |blocks| ==> blocks[i].serial < nextSerial)
      && (dragging.Some? ==> dragging.value < |items|)
      && (gap.Some? ==> gap.value <= |items|)
    }

    /** The sections already on the page, by the text of their `h3`; the panel is empty until it is first refreshed. */
    constructor (titles: seq<Option<string>>)
      ensures Valid()
      ensures |blocks| == |titles| && forall i :: 0 <= i < |titles| ==> blocks[i] == Block(i, titles[i], None)
      ensures items == [] && dragging.None? && gap.None? && resizing.None?
    {
      blocks := seq(|titles|, i requires 0 <= i < |titles| => Block(i, titles[i], None));
      items, dragging, gap, resizing := [], None, None, None;
      nextSerial := |titles|;
    }

    /** `refreshPanelList`: one item per block, then a fresh drag-and-drop state. */
    method RefreshPanelList()
      requires Valid()
      modifies this`items, this`dragging, this`gap
      ensures Valid()
      ensures items == PanelFor(blocks) && dragging.None? && gap.None?
    {
      var list: seq<Item> := [];
      var i := 0;
      while i < |blocks|
        invariant 0 <= i <= |blocks|
        invariant |list| == i
        invariant forall j :: 0 <= j < i ==> list[j] == Item(Label(blocks[j], j), Decimal(j))
      {
        list := list + [Item(Label(blocks[i], i), Decimal(i))];
        i := i + 1;
      }
      items, dragging, gap := list, None, None;
    }

    /** `dragstart` on the item at position `p`. */
    method DragStart(p: nat)
      requires Valid() && p < |items|
      modifies this`dragging
      ensures Valid() && dragging == Some(p)
    {
      dragging := Some(p);
    }

    /** `dragover` the item at `p` whose rectangle starts at `top`: the placeholder goes before it when the pointer is in its upper half, after it otherwise. */
    method DragOver(p: nat, clientY: int, top: int, height: int)
      requires Valid() && p < |items|
      modifies this`gap
      ensures Valid()
      ensures 2 * clientY < 2 * top + height ==> gap == Some(p)
      ensures 2 * clientY >= 2 * top + height ==> gap == Some(p + 1)
    {
      if 2 * clientY < 2 * top + height {
        gap := Some(p);
      } else {
        gap := Some(p + 1);
      }
    }

    /** `dragend`: the placeholder is removed and `dragEl` cleared. */
    method DragEnd()
      requires Valid()
      modifies this`dragging, this`gap
      ensures Valid() && dragging.None? && gap.None?
    {
      dragging, gap := None, None;
    }

    /**
     * `rebuildBlocksFromPanel`: each item's `data-index` picks a block of the
     * list taken at the start, which is appended to the content area; then
     * the panel is refreshed.
     */
    method RebuildBlocksFromPanel()
      requires Valid()
      modifies this`blocks, this`items, this`dragging, this`gap
      ensures Valid()
      ensures blocks == Rebuilt(old(blocks), old(blocks), Indexes(old(items)))
      ensures items == PanelFor(blocks) && dragging.None? && gap.None?
    {
      var snapshot, list := blocks, items;
      ghost var order := Indexes(list);
      var b := blocks;
      var i := 0;
      while i < |list|
        invariant 0 <= i <= |list|
        invariant b == Rebuilt(snapshot, snapshot, order[..i])
        invariant unchanged(this)
      {
        ghost var prev := b;
        var idx := NumberOf(list[i].index);
        if 0 <= idx < |snapshot| {
          b := MoveToEnd(b, snapshot[idx]);
        }
        RebuiltStep(snapshot, snapshot, order, i, prev, b);
        i := i + 1;
      }
      assert order[..i] == order;
      RebuiltPermutes(snapshot, snapshot, order);
      blocks := b;
      PermutationSerials(snapshot, blocks, nextSerial);
      RefreshPanelList();
    }

    /**
     * `drop` on an item: without a drag nothing happens; otherwise the
     * dragged item is moved to the placeholder and the blocks are rebuilt.
     * A drop before any `dragover` finds no placeholder in the list, and the
     * handler stops with an error before changing anything.
     */
    method Drop()
      requires Valid()
      modifies this`blocks, this`items, this`dragging, this`gap
      ensures Valid()
      ensures old(dragging).None? || old(gap).None? ==>
        blocks == old(blocks) && items == old(items) && dragging == old(dragging) && gap == old(gap)
      ensures old(dragging).Some? && old(gap).Some? ==>
        blocks == Rebuilt(old(blocks), old(blocks), Indexes(MoveItem(old(items), old(dragging).value, old(gap).value)))
        && items == PanelFor(blocks) && dragging.None? && gap.None?
    {
      if dragging.Some? && gap.Some? {
        items := MoveItem(items, dragging.value, gap.value);
        RebuildBlocksFromPanel();
      }
    }

    /** `mousedown` on the resize handle of block `k` with its `offsetHeight`. */
    method ResizeMouseDown(k: nat, clientY: int, offsetHeight: int)
      requires Valid() && k < |blocks|
      modifies this`resizing
      ensures Valid() && resizing == Some(Resize(blocks[k].serial, clientY, offsetHeight))
    {
      resizing := Some(Resize(blocks[k].serial, clientY, offsetHeight));
    }

    /** `document.onmousemove` during a resize. */
    method ResizeMouseMove(clientY: int)
      requires Valid()
      modifies this`blocks
      ensures Valid()
      ensures resizing.None? ==> blocks == old(blocks)
      ensures resizing.Some? ==> blocks == WithHeight(old(blocks), resizing.value.serial,
        NewHeight(resizing.value.startH, resizing.value.startY, clientY))
    {
      if resizing.Some? {
        var r := resizing.value;
        var s := blocks;
        blocks := WithHeight(s, r.serial, NewHeight(r.startH, r.startY, clientY));
        forall i, j | 0 <= i < j < |blocks| ensures Serial(blocks[i]) != Serial(blocks[j]) {
          assert Serial(blocks[i]) == Serial(s[i]) && Serial(blocks[j]) == Serial(s[j]);
        }
      }
    }

    /** `document.onmouseup` during a resize. */
    method ResizeMouseUp()
      requires Valid()
      modifies this`resizing
      ensures Valid() && resizing.None?
    {
      resizing := None;
    }

    /** The delete button of block `k`, with the answer to `confirm`. */
    method DeleteBlock(k: nat, confirmed: bool)
      requires Valid() && k < |blocks|
      modifies this`blocks, this`items, this`dragging, this`gap
      ensures Valid()
      ensures !confirmed ==> blocks == old(blocks) && items == old(items) && dragging == old(dragging) && gap == old(gap)
      ensures confirmed ==> blocks == old(blocks)[..k] + old(blocks)[k + 1..] && items == PanelFor(blocks)
    {
      if confirmed {
        var s := blocks;
        blocks := s[..k] + s[k + 1..];
        assert s == s[..k] + [s[k]] + s[k + 1..];
        forall i, j | 0 <= i < j < |blocks| ensures Serial(blocks[i]) != Serial(blocks[j]) {
          var i', j' := if i < k then i else i + 1, if j < k then j else j + 1;
          assert blocks[i] == s[i'] && blocks[j] == s[j'];
        }
        forall j | 0 <= j < |blocks| ensures blocks[j].serial < nextSerial {
          assert blocks[j] == s[if j < k then j else j + 1];
        }
        RefreshPanelList();
      }
    }

    /** `createNewBlock`: a section titled `新项目块` goes last, and the panel is refreshed. */
    method CreateNewBlock() returns (k: nat)
      requires Valid()
      modifies this`blocks, this`items, this`dragging, this`gap, this`nextSerial
      ensures Valid()
      ensures k == |old(blocks)| && blocks == old(blocks) + [Block(old(nextSerial), Some(NewTitle), None)]
      ensures items == PanelFor(blocks) && items[k].text == NewTitle
    {
      blocks := blocks + [Block(nextSerial, Some(NewTitle), None)];
      nextSerial := nextSerial + 1;
      k := |blocks| - 1;
      RefreshPanelList();
    }
  }
}
