/**
 * grokooooo/blocks.js: the module-level `blocks` array. `addBlock(title)`
 * numbers a new block from the current count; each block's resize handle
 * only lets it grow, to at least 200 px; the delete button filters out
 * every block with that id; the side panel's drag reorders blocks by the
 * position of their title in the panel; `getBlocksData` / `setBlocksData`
 * are what `saveToLocalStorage` / `loadFromLocalStorage` write and read.
 *
 * A block here is the part of its record the program reads back: id, title
 * and its section's inline `style.height`, plus `serial`, which stands for
 * the section element itself (the resize closure holds the element, not
 * the id): the number of `addBlock` calls made before the one that created
 * it. The DOM, the navigation and panel items, and `Sortable` are left out;
 * the panel's item texts after a drag are a parameter.
 */
module GrokBlocks {
  import opened Wrappers
  import opened Records
  import opened JsText
  import opened Sorting

  /** An inline `style.height`: unset (`""`) or a pixel length. */
  datatype Style = Unset | Px(px: int)

  datatype Block = Block(id: string, title: string, height: Style, serial: nat)

  /** One entry of `getBlocksData()`: `{ id, title, height }`. */
  datatype BlockData = BlockData(id: string, title: string, height: Style)

  const MinHeight: int := 200

  /** `block-<n>`. */
  function BlockIdAt(n: nat): string {
    "block-" + Decimal(n)
  }

  /** Two numbers give the same `block-<n>` id only if they are equal. */
  lemma BlockIdAtInjective(a: nat, b: nat)
    requires BlockIdAt(a) == BlockIdAt(b)
    ensures a == b
  {
    assert Decimal(a) == BlockIdAt(a)[6..];
    assert Decimal(b) == BlockIdAt(b)[6..];
    DecimalValue(a);
    DecimalValue(b);
  }

  function SerialOf(b: Block): nat { b.serial }
  function TitleOf(b: Block): string { b.title }
  function IdOf(b: Block): string { b.id }
  function DataTitle(d: BlockData): string { d.title }

  function Ids(s: seq<Block>): seq<string> {
    Keys(s, IdOf)
  }

  function HasId(id: string): Block -> bool {
    (b: Block) => b.id == id
  }

  function NotId(id: string): Block -> bool {
    (b: Block) => b.id != id
  }

  function HasSerial(serial: nat): Block -> bool {
    (b: Block) => b.serial == serial
  }

  function HasTitle(title: string): Block -> bool {
    (b: Block) => b.title == title
  }

  function WithHeight(h: Style): Block -> Block {
    (b: Block) => b.(height := h)
  }

  /** `getBlocksData()`. */
  function Data(s: seq<Block>): (r: seq<BlockData>)
    ensures |r| == |s|
  {
    seq(|s|, i requires 0 <= i < |s| => BlockData(s[i].id, s[i].title, s[i].height))
  }

  /** The array once `addBlock(title)` has pushed its record: the id is the new count. */
  function Added(s: seq<Block>, title: string, serial: nat): seq<Block> {
    s + [Block(BlockIdAt(|s| + 1), title, Unset, serial)]
  }

  /**
   * Ids taken from the count can repeat: with `block-1` and `block-2`,
   * deleting `block-1` and adding a block gives a second `block-2`, and a
   * delete of `block-2` then removes both.
   */
  lemma IdReuse()
    ensures var s := Added(Filter(Added(Added([], "项目1", 0), "项目2", 1), NotId(BlockIdAt(1))), "项目3", 2);
      |s| == 2 && s[0].id == s[1].id == BlockIdAt(2) && !Distinct(Ids(s))
      && Filter(s, NotId(BlockIdAt(2))) == []
  {
    var s0 := Added(Added([], "项目1", 0), "项目2", 1);
    assert Decimal(1) == "1" && Decimal(2) == "2";
    assert BlockIdAt(1) != BlockIdAt(2) by {
      assert BlockIdAt(1)[6] == '1' && BlockIdAt(2)[6] == '2';
    }
    assert s0[1..][1..] == [];
    var s1 := Filter(s0, NotId(BlockIdAt(1)));
    assert s1 == [s0[1]];
    var s := Added(s1, "项目3", 2);
    assert s[1..][1..] == [];
    assert Filter(s, NotId(BlockIdAt(2))) == [];
  }

  /** Every block's id is `block-<n>` for the element it was created as, counting from 1. */
  predicate Numbered(s: seq<Block>) {
    forall i :: 0 <= i < |s| ==> s[i].id == BlockIdAt(s[i].serial + 1)
  }

  /**
   * A block whose serial is the count, appended to blocks whose serials are
   * distinct and below it: the serials stay distinct and below the new
   * count, and numbered blocks stay numbered when the new id is its serial's.
   */
  lemma AppendNewest(s: seq<Block>, b: Block, created: nat)
    requires DistinctBy(s, SerialOf) && (forall i :: 0 <= i < |s| ==> s[i].serial < created) && b.serial == created
    ensures DistinctBy(s + [b], SerialOf)
    ensures forall i :: 0 <= i < |s + [b]| ==> (s + [b])[i].serial < created + 1
    ensures Numbered(s) && b.id == BlockIdAt(created + 1) ==> Numbered(s + [b])
  {
    var t := s + [b];
    forall i, j | 0 <= i < j < |t| ensures SerialOf(t[i]) != SerialOf(t[j]) {
      assert t[i] == s[i];
      if j < |s| {
        assert t[j] == s[j];
      }
    }
    forall i | 0 <= i < |t| ensures t[i].serial < created + 1 {
      if i < |s| {
        assert t[i] == s[i];
      }
    }
    if Numbered(s) && b.id == BlockIdAt(created + 1) {
      forall i | 0 <= i < |t| ensures t[i].id == BlockIdAt(t[i].serial + 1) {
        if i < |s| {
          assert t[i] == s[i];
        }
      }
    }
  }

  /** Numbered blocks with distinct elements have distinct ids. */
  lemma NumberedDistinct(s: seq<Block>)
    requires Numbered(s) && DistinctBy(s, SerialOf)
    ensures Distinct(Ids(s))
  {
    forall i, j | 0 <= i < j < |s| ensures Ids(s)[i] != Ids(s)[j] {
      if s[i].id == s[j].id {
        BlockIdAtInjective(s[i].serial + 1, s[j].serial + 1);
        assert SerialOf(s[i]) != SerialOf(s[j]);
      }
    }
  }

  /**
   * With distinct ids the delete filter removes exactly the first, and
   * only, block with that id.
   */
  lemma DeleteRemovesOne(s: seq<Block>, id: string)
    requires Distinct(Ids(s))
    ensures Filter(s, NotId(id)) == RemoveFirst(s, HasId(id))
  {
    assert AtMostOne(s, HasId(id)) by {
      forall i, j | 0 <= i < j < |s| && HasId(id)(s[i]) ensures !HasId(id)(s[j]) {
        assert Ids(s)[i] != Ids(s)[j];
      }
    }
    RemoveOnlyMatch(s, HasId(id), NotId(id));
  }

  /**
   * The height a resize step sets: nothing unless the pointer moved down,
   * then `Math.max(startHeight + delta, 200)`, so a block only ever gets
   * taller than it was when the drag started.
   */
  function Grown(startHeight: int, delta: int): (h: Option<int>)
    ensures h.Some? <==> delta > 0
    ensures h.Some? ==> h.value > startHeight && h.value >= MinHeight
    ensures h.Some? ==> h.value == startHeight + delta || (h.value == MinHeight && startHeight + delta < MinHeight)
  {
    if delta > 0 then Some(if startHeight + delta >= MinHeight then startHeight + delta else MinHeight)
    else None
  }

  /** `order.indexOf(title)` in the panel's item texts, -1 when absent. */
  function PanelIndex(panel: seq<string>, title: string): (k: int)
    ensures -1 <= k < |panel|
    ensures k >= 0 ==> panel[k] == title
    ensures k == -1 <==> title !in panel
  {
    var i := IndexOf(panel, title);
    if i.Some? then i.value else -1
  }

  function Rank(panel: seq<string>): Block -> int {
    (b: Block) => PanelIndex(panel, b.title)
  }

  /** Ranks that rise strictly from index to index, all below the length, are the indexes. */
  lemma {:induction false} RanksAtLeast(keys: seq<int>, i: nat)
    requires forall a, b :: 0 <= a < b < |keys| ==> keys[a] < keys[b]
    requires forall a :: 0 <= a < |keys| ==> 0 <= keys[a]
    requires i < |keys|
    ensures keys[i] >= i
  {
    if i > 0 {
      RanksAtLeast(keys, i - 1);
    }
  }

  lemma {:induction false} RanksAtMost(keys: seq<int>, i: nat)
    requires forall a, b :: 0 <= a < b < |keys| ==> keys[a] < keys[b]
    requires forall a :: 0 <= a < |keys| ==> keys[a] < |keys|
    requires i < |keys|
    ensures keys[i] <= i
    decreases |keys| - i
  {
    if i < |keys| - 1 {
      RanksAtMost(keys, i + 1);
    }
  }

  /**
   * In a sorted array whose titles are distinct and all in the panel, the
   * panel positions rise strictly.
   */
  lemma StrictRanks(r: seq<Block>, panel: seq<string>)
    requires SortedBy(r, Rank(panel)) && DistinctBy(r, TitleOf)
    requires forall i :: 0 <= i < |r| ==> r[i].title in panel
    ensures forall a, b :: 0 <= a < b < |r| ==> Rank(panel)(r[a]) < Rank(panel)(r[b])
  {
    forall a, b | 0 <= a < b < |r| ensures Rank(panel)(r[a]) < Rank(panel)(r[b]) {
      assert TitleOf(r[a]) != TitleOf(r[b]);
      assert Rank(panel)(r[a]) <= Rank(panel)(r[b]);
      assert panel[Rank(panel)(r[a])] == r[a].title;
      assert panel[Rank(panel)(r[b])] == r[b].title;
    }
  }

  /**
   * When the panel lists each block's title once, and titles are distinct,
   * `reorderBlocks` puts the blocks in exactly the panel's order.
   */
  lemma ReorderFollowsPanel(s: seq<Block>, panel: seq<string>)
    requires |panel| == |s| && Distinct(panel) && DistinctBy(s, TitleOf)
    requires forall i :: 0 <= i < |s| ==> s[i].title in panel
    ensures var r := SortBy(s, Rank(panel));
      |r| == |panel| && forall i :: 0 <= i < |r| ==> r[i].title == panel[i]
  {
    var r := SortBy(s, Rank(panel));
    PermutationDistinctBy(s, r, TitleOf);
    forall i | 0 <= i < |r| ensures r[i].title in panel {
      assert r[i] in multiset(s);
    }
    InPanelOrder(r, panel);
  }

  /** A sorted array of as many distinct titles as the panel has, all in the panel, is in panel order. */
  lemma InPanelOrder(r: seq<Block>, panel: seq<string>)
    requires |panel| == |r| && SortedBy(r, Rank(panel)) && DistinctBy(r, TitleOf)
    requires forall i :: 0 <= i < |r| ==> r[i].title in panel
    ensures forall i :: 0 <= i < |r| ==> r[i].title == panel[i]
  {
    StrictRanks(r, panel);
    var keys := seq(|r|, k requires 0 <= k < |r| => Rank(panel)(r[k]));
    forall i | 0 <= i < |r| ensures r[i].title == panel[i] {
      RanksAtLeast(keys, i);
      RanksAtMost(keys, i);
      assert panel[keys[i]] == r[i].title;
    }
  }

  /** `setBlocksData` for one entry: `addBlock(d.title)`, then the first block with that title takes the saved height. */
  function Restore(s: seq<Block>, d: BlockData, serial: nat): seq<Block> {
    UpdateFirst(Added(s, d.title, serial), HasTitle(d.title), WithHeight(d.height))
  }

  /** `setBlocksData(data)` on the array `s`, the first new block being element `serial`. */
  function Restored(s: seq<Block>, data: seq<BlockData>, serial: nat): (r: seq<Block>)
    ensures |r| == |s| + |data|
    decreases |data|
  {
    if |data| == 0 then s
    else
      var n := |data| - 1;
      Restore(Restored(s, data[..n], serial), data[n], serial + n)
  }

  /**
   * The blocks `setBlocksData` creates for `data` after m blocks, when no
   * title clashes: entry i becomes `block-<m+i+1>` with its title and height.
   */
  function Fresh(m: nat, data: seq<BlockData>, serial: nat): (r: seq<Block>)
    ensures |r| == |data|
  {
    seq(|data|, i requires 0 <= i < |data| => Block(BlockIdAt(m + i + 1), data[i].title, data[i].height, serial + i))
  }

  /**
   * Loading what was saved: when no block already on the page shares a
   * title with the saved entries and the saved titles are distinct, each
   * entry comes back as a new block with its title and height; its id is
   * renumbered from the count, whatever id was saved.
   */
  lemma {:induction false} RestoreRoundTrip(s: seq<Block>, data: seq<BlockData>, serial: nat)
    requires forall j :: 0 <= j < |data| ==> data[j].title !in Keys(s, TitleOf)
    requires DistinctBy(data, DataTitle)
    ensures Restored(s, data, serial) == s + Fresh(|s|, data, serial)
    decreases |data|
  {
    if data != [] {
      var n := |data| - 1;
      RestoreRoundTrip(s, data[..n], serial);
      var prev := s + Fresh(|s|, data[..n], serial);
      FreshTitles(s, data, n, serial);
      var next := prev + [Block(BlockIdAt(|prev| + 1), data[n].title, data[n].height, serial + n)];
      RestoreNew(prev, data[n], serial + n);
      RestoredStepAt(s, data, n, serial, prev, serial + n, next);
      assert data[..n + 1] == data;
      assert next == Restored(s, data, serial);
      FreshSnoc(s, data, serial);
      assert next == s + Fresh(|s|, data, serial);
    }
  }

  /** The fresh blocks for all of `data` are those for all but the last entry, then the last one's. */
  lemma FreshSnoc(s: seq<Block>, data: seq<BlockData>, serial: nat)
    requires data != []
    ensures var n := |data| - 1; var prev := s + Fresh(|s|, data[..n], serial);
      prev + [Block(BlockIdAt(|prev| + 1), data[n].title, data[n].height, serial + n)] == s + Fresh(|s|, data, serial)
  {
    var n := |data| - 1;
    var prev := s + Fresh(|s|, data[..n], serial);
    var last := Block(BlockIdAt(|prev| + 1), data[n].title, data[n].height, serial + n);
    forall j | 0 <= j < |s| + |data|
      ensures (prev + [last])[j] == (s + Fresh(|s|, data, serial))[j]
    {
      if j >= |s| && j < |s| + n {
        assert data[..n][j - |s|] == data[j - |s|];
      }
    }
  }

  /**
   * What `setBlocksData(data)` last saves: the array once the last entry's
   * block was added, before its height was written.
   */
  function LastSaved(s: seq<Block>, data: seq<BlockData>, serial: nat): seq<BlockData>
    requires data != []
  {
    var n := |data| - 1;
    Data(Added(Restored(s, data[..n], serial), data[n].title, serial + n))
  }

  /** The entries but the last, then the last: all of `setBlocksData`, and what the last `addBlock` saved. */
  lemma RestoredLast(s: seq<Block>, data: seq<BlockData>, serial: nat, mid: seq<Block>, k: nat, fin: seq<Block>)
    requires data != [] && k == serial + |data| - 1
    requires mid == Restored(s, data[..|data| - 1], serial)
    requires fin == Restore(mid, data[|data| - 1], k)
    ensures fin == Restored(s, data, serial)
    ensures Data(Added(mid, data[|data| - 1].title, k)) == LastSaved(s, data, serial)
  {
  }

  /** Reordering keeps every serial below the count. */
  lemma PermutationSerials(s: seq<Block>, r: seq<Block>, created: nat)
    requires multiset(r) == multiset(s) && forall i :: 0 <= i < |s| ==> s[i].serial < created
    ensures forall i :: 0 <= i < |r| ==> r[i].serial < created
  {
    forall i | 0 <= i < |r| ensures r[i].serial < created {
      assert r[i] in multiset(s);
    }
  }

  /** One more entry of `setBlocksData` is one more `Restore`. */
  lemma RestoredStep(s: seq<Block>, data: seq<BlockData>, i: nat, serial: nat)
    requires i < |data|
    ensures Restored(s, data[..i + 1], serial) == Restore(Restored(s, data[..i], serial), data[i], serial + i)
  {
    assert data[..i + 1][..i] == data[..i];
  }

  /** The same step, with the blocks before and after it named. */
  lemma RestoredStepAt(s: seq<Block>, data: seq<BlockData>, i: nat, serial: nat, prev: seq<Block>, n: nat, next: seq<Block>)
    requires i < |data| && prev == Restored(s, data[..i], serial)
    requires n == serial + i && next == Restore(prev, data[i], n)
    ensures next == Restored(s, data[..i + 1], serial)
  {
    var d := data[..i + 1];
    assert d[..i] == data[..i] && d[i] == data[i];
    assert Restored(s, d[..i], serial) == prev;
  }

  /** The title of entry n is on no block on the page or made from the entries before it. */
  lemma FreshTitles(s: seq<Block>, data: seq<BlockData>, n: nat, serial: nat)
    requires n < |data| && data[n].title !in Keys(s, TitleOf) && DistinctBy(data, DataTitle)
    ensures forall j :: 0 <= j < |s| + n ==> (s + Fresh(|s|, data[..n], serial))[j].title != data[n].title
  {
    var prev := s + Fresh(|s|, data[..n], serial);
    forall j | 0 <= j < |s| + n ensures prev[j].title != data[n].title {
      if j < |s| {
        assert s[j].title == Keys(s, TitleOf)[j];
      } else {
        assert prev[j].title == data[j - |s|].title;
        assert DataTitle(data[j - |s|]) != DataTitle(data[n]);
      }
    }
  }

  /** An entry whose title no block has yet comes back as the new last block, with its height. */
  lemma RestoreNew(prev: seq<Block>, d: BlockData, serial: nat)
    requires forall j :: 0 <= j < |prev| ==> prev[j].title != d.title
    ensures Restore(prev, d, serial) == prev + [Block(BlockIdAt(|prev| + 1), d.title, d.height, serial)]
  {
    var added := Added(prev, d.title, serial);
    assert forall j :: 0 <= j < |added| - 1 ==> !HasTitle(d.title)(added[j]);
    assert HasTitle(d.title)(added[|added| - 1]);
    var k := FindIndex(added, HasTitle(d.title));
    assert k.Some? && k.value == |added| - 1;
  }

  /**
   * Two saved entries with one title: the second entry's height goes to
   * the first block, and the second block keeps no height.
   */
  lemma SharedTitleHeight()
    ensures Restored([], [BlockData(BlockIdAt(1), "项目", Px(300)), BlockData(BlockIdAt(2), "项目", Px(500))], 0)
      == [Block(BlockIdAt(1), "项目", Px(500), 0), Block(BlockIdAt(2), "项目", Unset, 1)]
  {
    var data := [BlockData(BlockIdAt(1), "项目", Px(300)), BlockData(BlockIdAt(2), "项目", Px(500))];
    assert data[..1][..0] == [];
    var first := Restored([], data[..1], 0);
    assert first == [Block(BlockIdAt(1), "项目", Px(300), 0)];
    var added := Added(first, "项目", 1);
    assert FindIndex(added, HasTitle("项目")) == Some(0);
  }

  /** What a block's resize `mousedown` captures: the element, `clientY` and `offsetHeight`. */
  datatype Session = Session(serial: nat, startY: int, startHeight: int)

  class BlockList {
    var blocks: seq<Block>
    /** The number of `addBlock` calls so far: the next element's serial. */
    var created: nat
    /** The `blocks` part of `portfolioData` as last written. */
    var saved: Option<seq<BlockData>>
    var session: Option<Session>

    /** Elements are distinct and all were created by earlier calls. */
    ghost predicate Valid()
      reads this
    {
      DistinctBy(blocks, SerialOf) && forall i :: 0 <= i < |blocks| ==> blocks[i].serial < created
    }

    /** The page before `initBlocks`, with `stored` what `localStorage` holds. */
    constructor (stored: Option<seq<BlockData>>)
      ensures Valid() && blocks == [] && created == 0 && saved == stored && session.None?
    {
      blocks := [];
      created := 0;
      saved := stored;
      session := None;
    }

    /** `saveToLocalStorage`, as far as the blocks go. */
    method SaveToLocalStorage()
      modifies this`saved
      ensures saved == Some(Data(blocks))
    {
      saved := Some(Data(blocks));
    }

    /**
     * `addBlock(title)` as written: the record is pushed and the section
     * built, but colouring the title through the pseudo-element selector
     * `.block-title::before` finds no element and throws, so nothing is
     * saved. It reports that it threw.
     */
    method AddBlockAsWritten(title: string) returns (id: string, threw: bool)
      requires Valid()
      modifies this`blocks, this`created
      ensures Valid() && threw
      ensures id == BlockIdAt(|old(blocks)| + 1)
      ensures blocks == Added(old(blocks), title, old(created)) && created == old(created) + 1
      ensures saved == old(saved)
    {
      id := BlockIdAt(|blocks| + 1);
      AppendNewest(blocks, Block(id, title, Unset, created), created);
      blocks := blocks + [Block(id, title, Unset, created)];
      created := created + 1;
      threw := true;
    }

    /**
     * `initBlocks` as written: the first `addBlock` throws, so 项目2 is never
     * added, the add button is never wired and nothing is saved; the throw
     * also ends the start-up handler that called it.
     */
    method InitBlocksAsWritten() returns (threw: bool)
      requires Valid()
      modifies this`blocks, this`created
      ensures Valid() && threw
      ensures blocks == Added(old(blocks), "项目1", old(created)) && created == old(created) + 1
      ensures saved == old(saved)
    {
      var first;
      first, threw := AddBlockAsWritten("项目1");
    }

    /**
     * `addBlock(title)` with the title colouring taking no effect instead of
     * throwing: the id is `block-` and the count plus one, the record goes
     * last with no height, and everything is saved.
     */
    method AddBlock(title: string) returns (id: string)
      requires Valid()
      modifies this`blocks, this`created, this`saved
      ensures Valid()
      ensures id == BlockIdAt(|old(blocks)| + 1)
      ensures blocks == Added(old(blocks), title, old(created)) && created == old(created) + 1
      ensures saved == Some(Data(blocks))
    {
      id := BlockIdAt(|blocks| + 1);
      AppendNewest(blocks, Block(id, title, Unset, created), created);
      blocks := blocks + [Block(id, title, Unset, created)];
      created := created + 1;
      SaveToLocalStorage();
    }

    /**
     * `addBlock` with the id taken from a count that never goes down (the
     * number of blocks ever added): ids stay distinct across deletes.
     */
    method AddBlockAsIntended(title: string) returns (id: string)
      requires Valid()
      modifies this`blocks, this`created, this`saved
      ensures Valid()
      ensures id == BlockIdAt(old(created) + 1)
      ensures blocks == old(blocks) + [Block(id, title, Unset, old(created))] && created == old(created) + 1
      ensures Numbered(old(blocks)) ==> Numbered(blocks) && Distinct(Ids(blocks))
      ensures saved == Some(Data(blocks))
    {
      id := BlockIdAt(created + 1);
      AppendNewest(blocks, Block(id, title, Unset, created), created);
      blocks := blocks + [Block(id, title, Unset, created)];
      created := created + 1;
      if Numbered(old(blocks)) {
        NumberedDistinct(blocks);
      }
      SaveToLocalStorage();
    }

    /** `initBlocks` once `addBlock` completes: the two sample blocks 项目1 and 项目2, saved. */
    method InitBlocks()
      requires Valid()
      modifies this`blocks, this`created, this`saved
      ensures Valid()
      ensures blocks == Added(Added(old(blocks), "项目1", old(created)), "项目2", old(created) + 1)
      ensures created == old(created) + 2 && saved == Some(Data(blocks))
    {
      var first := AddBlock("项目1");
      var second := AddBlock("项目2");
    }

    /** The resize handle's `mousedown` on the block at index k. */
    method ResizeMouseDown(k: nat, clientY: int, offsetHeight: int)
      requires k < |blocks|
      modifies this`session
      ensures session == Some(Session(blocks[k].serial, clientY, offsetHeight))
    {
      session := Some(Session(blocks[k].serial, clientY, offsetHeight));
    }

    /**
     * `resize(e)`: the block the drag started on takes the grown height
     * when the pointer is below where it started; nothing is saved. A
     * block deleted meanwhile is no longer in the array, so nothing changes.
     */
    method ResizeMouseMove(clientY: int)
      requires Valid()
      modifies this`blocks
      ensures Valid()
      ensures session.None? ==> blocks == old(blocks)
      ensures session.Some? ==>
        (var g := Grown(session.value.startHeight, clientY - session.value.startY);
         blocks == if g.Some? then UpdateFirst(old(blocks), HasSerial(session.value.serial), WithHeight(Px(g.value))) else old(blocks))
    {
      if session.Some? {
        var g := Grown(session.value.startHeight, clientY - session.value.startY);
        if g.Some? {
          var k := FindIndex(blocks, HasSerial(session.value.serial));
          if k.Some? {
            blocks := blocks[k.value := blocks[k.value].(height := Px(g.value))];
            assert forall i :: 0 <= i < |blocks| ==> SerialOf(blocks[i]) == SerialOf(old(blocks)[i]);
          }
        }
      }
    }

    /** `stopResize`. */
    method ResizeMouseUp()
      modifies this`session
      ensures session.None?
    {
      session := None;
    }

    /**
     * The delete button of block `id`, after `confirm` answered `confirmed`:
     * every block with that id goes and everything is saved.
     */
    method DeleteBlock(id: string, confirmed: bool)
      requires Valid()
      modifies this`blocks, this`saved
      ensures Valid()
      ensures !confirmed ==> blocks == old(blocks) && saved == old(saved)
      ensures confirmed ==> blocks == Filter(old(blocks), NotId(id)) && saved == Some(Data(blocks))
      ensures confirmed ==> forall i :: 0 <= i < |blocks| ==> blocks[i].id != id
      ensures Numbered(old(blocks)) ==> Numbered(blocks)
    {
      if confirmed {
        FilterDistinctBy(blocks, NotId(id), SerialOf);
        blocks := Filter(blocks, NotId(id));
        SaveToLocalStorage();
      }
    }

    /**
     * `reorderBlocks`, with `panel` the panel's item texts after the drag:
     * a stable sort by each title's position in the panel, then a save.
     */
    method ReorderBlocks(panel: seq<string>)
      requires Valid()
      modifies this`blocks, this`saved
      ensures Valid()
      ensures blocks == SortBy(old(blocks), Rank(panel))
      ensures saved == Some(Data(blocks))
    {
      var sorted := SortBy(blocks, Rank(panel));
      PermutationDistinctBy(blocks, sorted, SerialOf);
      PermutationSerials(blocks, sorted, created);
      blocks := sorted;
      SaveToLocalStorage();
    }

    /** `blocks.find(b => b.title === title).element.style.height = height`, when there is such a block. */
    method SetFirstHeight(title: string, height: Style)
      requires Valid()
      modifies this`blocks
      ensures Valid()
      ensures blocks == UpdateFirst(old(blocks), HasTitle(title), WithHeight(height))
    {
      var k := FindIndex(blocks, HasTitle(title));
      if k.Some? {
        blocks := blocks[k.value := blocks[k.value].(height := height)];
        assert forall j :: 0 <= j < |blocks| ==> SerialOf(blocks[j]) == SerialOf(old(blocks)[j]);
      }
    }

    /** The body of `setBlocksData`'s `forEach` for one entry. */
    method RestoreEntry(d: BlockData)
      requires Valid()
      modifies this`blocks, this`created, this`saved
      ensures Valid()
      ensures blocks == Restore(old(blocks), d, old(created)) && created == old(created) + 1
      ensures saved == Some(Data(Added(old(blocks), d.title, old(created))))
    {
      var id := AddBlock(d.title);
      SetFirstHeight(d.title, d.height);
    }

    /**
     * `setBlocksData(data)`: each entry through `addBlock` and then a height
     * write on the first block with its title. Each `addBlock` saves before
     * its height is written, so the last entry's height is not yet saved.
     */
    method SetBlocksData(data: seq<BlockData>)
      requires Valid()
      modifies this`blocks, this`created, this`saved
      ensures Valid()
      ensures blocks == Restored(old(blocks), data, old(created))
      ensures created == old(created) + |data|
      ensures data == [] ==> saved == old(saved)
      ensures data != [] ==> saved == Some(LastSaved(old(blocks), data, old(created)))
    {
      if data != [] {
        var n := |data| - 1;
        ghost var s0, c0 := blocks, created;
        RestoreEntries(data[..n]);
        ghost var mid, cm := blocks, created;
        RestoreEntry(data[n]);
        RestoredLast(s0, data, c0, mid, cm, blocks);
      }
    }

    /** The `forEach` of `setBlocksData` over the entries in `data`, in order. */
    method RestoreEntries(data: seq<BlockData>)
      requires Valid()
      modifies this`blocks, this`created, this`saved
      ensures Valid()
      ensures blocks == Restored(old(blocks), data, old(created))
      ensures created == old(created) + |data|
    {
      var s0, c0 := blocks, created;
      ghost var want := blocks;
      var i := 0;
      while i < |data|
        invariant 0 <= i <= |data|
        invariant Valid()
        invariant want == Restored(s0, data[..i], c0)
        invariant blocks == want && created == c0 + i
      {
        ghost var prev, n := blocks, created;
        RestoreEntry(data[i]);
        want := blocks;
        RestoredStepAt(s0, data, i, c0, prev, n, want);
        i := i + 1;
      }
      assert data[..i] == data;
    }
  }
}
