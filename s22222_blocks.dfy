/**
 * 22222/blocks.js: the module-level `blocks` array kept under
 * `portfolio_blocks`. Blocks are rendered, and listed in the navigation, in
 * array order; the `order` field is written but never used to sort. The
 * DOM is left out: what a render produces is the sequence of block ids on
 * the page and of navigation links. `Date.now()` is a parameter.
 */
module Blocks22222 {
  import opened Wrappers
  import opened Storage
  import opened Records
  import opened JsText

  datatype Block = Block(id: string, title: string, order: int)

  const NewTitle: string := "项目块"

  /** The five blocks used when nothing is stored. */
  function Defaults(): seq<Block> {
    [ Block("intro", "自我介绍", 0),
      Block("exp", "工作经历", 1),
      Block("skills", "技术能力", 2),
      Block("works", "作品集", 3),
      Block("contact", "联系我", 4) ]
  }

  /** Every block's order is its index. */
  predicate Dense(s: seq<Block>) {
    forall i :: 0 <= i < |s| ==> s[i].order == i
  }

  function Ids(s: seq<Block>): seq<string> {
    Keys(s, (b: Block) => b.id)
  }

  /** The defaults are five blocks with distinct ids and orders 0..4. */
  lemma DefaultsDense()
    ensures |Defaults()| == 5 && Dense(Defaults()) && Distinct(Ids(Defaults()))
  {
  }

  /**
   * The first line of the file: the stored array, or the defaults when
   * nothing is stored; `None` when the stored text does not parse and the
   * script stops.
   */
  function Initial(slot: Slot<seq<Block>>): (r: Option<seq<Block>>)
    ensures slot.Absent? ==> r == Some(Defaults())
    ensures slot.Stored? ==> r == Some(slot.value)
    ensures slot.Unparseable? ==> r.None?
  {
    ReadOr(slot, Defaults())
  }

  /** A navigation link: `#<id>` and the block's title. */
  datatype NavItem = NavItem(href: string, text: string)

  function NavOf(b: Block): NavItem {
    NavItem("#" + b.id, b.title)
  }

  /** The block `addNewBlock` appends to an array of length n. */
  function NewBlock(now: nat, n: nat): Block {
    Block("block-" + Decimal(now), NewTitle, n)
  }

  /** Appending a block whose order is the old length keeps the orders dense. */
  lemma AddKeepsDense(s: seq<Block>, now: nat)
    requires Dense(s)
    ensures Dense(s + [NewBlock(now, |s|)])
  {
  }

  class BlockList {
    var blocks: seq<Block>
    /** `portfolio_blocks` in `localStorage`. */
    var saved: Slot<seq<Block>>

    /** The state once the first line has run, with `initial` what it read. */
    constructor (stored: Slot<seq<Block>>, initial: seq<Block>)
      requires Initial(stored) == Some(initial)
      ensures blocks == initial && saved == stored
    {
      blocks := initial;
      saved := stored;
    }

    /** `saveBlocks`: the whole array under `portfolio_blocks`. */
    method SaveBlocks()
      modifies this`saved
      ensures saved == Stored(blocks)
    {
      saved := Stored(blocks);
    }

    /** `updateNavItems`: one link per block, in array order. */
    method UpdateNavItems() returns (nav: seq<NavItem>)
      ensures |nav| == |blocks|
      ensures forall i :: 0 <= i < |blocks| ==> nav[i] == NavOf(blocks[i])
    {
      nav := [];
      var i := 0;
      while i < |blocks|
        invariant 0 <= i <= |blocks| && |nav| == i
        invariant forall j :: 0 <= j < i ==> nav[j] == NavOf(blocks[j])
      {
        nav := nav + [NavOf(blocks[i])];
        i := i + 1;
      }
    }

    /**
     * `renderBlocks`: the blocks appear on the page in array order, whatever
     * their `order` fields say; then the navigation is rebuilt and the array
     * saved unchanged.
     */
    method RenderBlocks() returns (page: seq<string>, nav: seq<NavItem>)
      modifies this`saved
      ensures page == Ids(blocks)
      ensures |nav| == |blocks| && forall i :: 0 <= i < |blocks| ==> nav[i] == NavOf(blocks[i])
      ensures saved == Stored(blocks)
    {
      page := [];
      var i := 0;
      while i < |blocks|
        invariant 0 <= i <= |blocks|
        invariant page == Ids(blocks[..i])
      {
        assert Ids(blocks[..i + 1]) == Ids(blocks[..i]) + [blocks[i].id];
        page := page + [blocks[i].id];
        i := i + 1;
      }
      assert blocks[..i] == blocks;
      nav := UpdateNavItems();
      SaveBlocks();
    }

    /**
     * `addNewBlock(now)`: one block `block-<now>` titled 项目块 with order =
     * old length goes last, the page is rendered and the array saved.
     */
    method AddNewBlock(now: nat) returns (page: seq<string>)
      modifies this`blocks, this`saved
      ensures blocks == old(blocks) + [NewBlock(now, |old(blocks)|)]
      ensures page == Ids(old(blocks)) + [NewBlock(now, |old(blocks)|).id]
      ensures saved == Stored(blocks)
    {
      blocks := blocks + [NewBlock(now, |blocks|)];
      assert Ids(blocks) == Ids(old(blocks)) + [NewBlock(now, |old(blocks)|).id];
      var nav;
      page, nav := RenderBlocks();
    }
  }
}
