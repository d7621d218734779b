/**
 * myonly79/script.js: the global `AppState` (edit mode, blocks, stickers),
 * the hero texts on the page, and the three `localStorage` entries that
 * `saveData`, `saveHeroText` and `loadSavedData` use.
 */
module Myonly79State {
  import opened Wrappers
  import opened Storage
  import opened Hero

  /** A content block record. */
  datatype Block = Block(id: string, title: string, color: string, order: int, height: int)

  /** A sticker record; `parentBlockId` and `link` are `null` when `None`. */
  datatype Sticker = Sticker(
    id: string, kind: string, content: string,
    x: int, y: int, width: int, height: int,
    parentBlockId: Option<string>, zIndex: int, link: Option<string>,
    styles: map<string, string>)

  /** The entries `blog_blocks`, `blog_stickers` and `blog_hero_text`. */
  datatype Saved = Saved(blocks: Slot<seq<Block>>, stickers: Slot<seq<Sticker>>, hero: Slot<map<string, string>>)

  /** The tests `s => s.id === id` and `b => b.id === id`. */
  function StickerId(id: string): Sticker -> bool { (s: Sticker) => s.id == id }
  function BlockId(id: string): Block -> bool { (b: Block) => b.id == id }

  /** The block `loadSavedData` falls back to. */
  const HomeBlock: Block := Block("home", "首页", "#f8f9fa", 0, 400)

  class App {
    var isEditMode: bool
    var blocks: seq<Block>
    var stickers: seq<Sticker>
    /** The page's `.editable-hero-text` elements, in document order. */
    var hero: seq<HeroText>
    var saved: Saved

    /** `AppState` as the script declares it: preview mode, no blocks, no stickers. */
    constructor (hero: seq<HeroText>, saved: Saved)
      ensures !isEditMode && blocks == [] && stickers == []
      ensures this.hero == hero && this.saved == saved
    {
      isEditMode := false;
      blocks := [];
      stickers := [];
      this.hero := hero;
      this.saved := saved;
    }
  }

  /** `saveData`: both arrays, as they are now, under their keys. */
  method SaveData(app: App)
    modifies app`saved
    ensures app.saved == old(app.saved).(blocks := Stored(app.blocks), stickers := Stored(app.stickers))
  {
    app.saved := app.saved.(blocks := Stored(app.blocks), stickers := Stored(app.stickers));
  }

  /** The blocks, stickers and hero texts `loadSavedData` leaves behind. */
  datatype Loaded = Loaded(blocks: seq<Block>, stickers: seq<Sticker>, hero: seq<HeroText>)

  /**
   * `loadSavedData`: each present entry replaces its part of the state; an
   * entry that does not parse throws, and the handler replaces blocks and
   * stickers by the home block alone and no stickers, even when they had
   * been read already.
   */
  function LoadSavedState(saved: Saved, blocks: seq<Block>, stickers: seq<Sticker>, hero: seq<HeroText>): (r: Loaded)
    ensures saved.blocks.Unparseable? || saved.stickers.Unparseable? || saved.hero.Unparseable?
            ==> r == Loaded([HomeBlock], [], hero)
    ensures !saved.blocks.Unparseable? && !saved.stickers.Unparseable? && !saved.hero.Unparseable? ==>
            r.blocks == (if saved.blocks.Stored? then saved.blocks.value else blocks)
            && r.stickers == (if saved.stickers.Stored? then saved.stickers.value else stickers)
            && r.hero == (if saved.hero.Stored? then ApplyHero(saved.hero.value, hero) else hero)
  {
    if saved.blocks.Unparseable? || saved.stickers.Unparseable? || saved.hero.Unparseable? then
      Loaded([HomeBlock], [], hero)
    else
      Loaded(if saved.blocks.Stored? then saved.blocks.value else blocks,
             if saved.stickers.Stored? then saved.stickers.value else stickers,
             if saved.hero.Stored? then ApplyHero(saved.hero.value, hero) else hero)
  }

  method LoadSavedData(app: App)
    modifies app`blocks, app`stickers, app`hero
    ensures Loaded(app.blocks, app.stickers, app.hero)
            == LoadSavedState(app.saved, old(app.blocks), old(app.stickers), old(app.hero))
  {
    if app.saved.blocks.Unparseable? || app.saved.stickers.Unparseable? || app.saved.hero.Unparseable? {
      app.blocks := [HomeBlock];
      app.stickers := [];
      return;
    }
    if app.saved.blocks.Stored? {
      app.blocks := app.saved.blocks.value;
    }
    if app.saved.stickers.Stored? {
      app.stickers := app.saved.stickers.value;
    }
    if app.saved.hero.Stored? {
      app.hero := ApplyHero(app.saved.hero.value, app.hero);
    }
  }

  /** What `saveData` wrote is what `loadSavedData` reads back, whatever the state was before. */
  lemma SaveThenLoad(saved: Saved, blocks: seq<Block>, stickers: seq<Sticker>, before: Loaded)
    requires !saved.hero.Unparseable?
    ensures var r := LoadSavedState(saved.(blocks := Stored(blocks), stickers := Stored(stickers)),
                                    before.blocks, before.stickers, before.hero);
            r.blocks == blocks && r.stickers == stickers
  {
  }

  /**
   * `saveHeroText`: walks the hero elements in document order and stores
   * each text under its key and each set colour under `<key>_color`.
   */
  method SaveHeroText(app: App)
    modifies app`saved
    ensures app.saved == old(app.saved).(hero := Stored(HeroData(app.hero)))
  {
    var data: map<string, string> := map[];
    var i := 0;
    while i < |app.hero|
      invariant 0 <= i <= |app.hero|
      invariant data == HeroData(app.hero[..i])
    {
      var el := app.hero[i];
      assert app.hero[..i + 1][..i] == app.hero[..i];
      data := data[el.key := el.text];
      if el.color != "" {
        data := data[ColorKey(el.key) := el.color];
      }
      i := i + 1;
    }
    assert app.hero[..i] == app.hero;
    app.saved := app.saved.(hero := Stored(data));
  }

  /**
   * `initHeroText`: the same restore as in `loadSavedData`, without the
   * handler, so an entry that does not parse throws and changes nothing.
   */
  method InitHeroText(app: App) returns (threw: bool)
    modifies app`hero
    ensures threw <==> app.saved.hero.Unparseable?
    ensures app.hero == if app.saved.hero.Stored? then ApplyHero(app.saved.hero.value, old(app.hero)) else old(app.hero)
  {
    threw := app.saved.hero.Unparseable?;
    if app.saved.hero.Stored? {
      app.hero := ApplyHero(app.saved.hero.value, app.hero);
    }
  }
}
