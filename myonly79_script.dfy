/**
 * The parts of myonly79/script.js that differ from the managers: the
 * unclamped sticker drag, the password check, and editing a hero text.
 */
module Myonly79Script {
  import opened Wrappers
  import opened Storage
  import opened Geometry
  import opened Records
  import opened JsText
  import opened Hero
  import opened Myonly79State
  import opened Myonly79Stickers

  /** The script's `doDrag`: the sticker follows the pointer with no bound at all. */
  function MovedFreely(s: Sticker, d: Drag, clientX: int, clientY: int): (r: Sticker)
    ensures r.x - d.initialX == clientX - d.startX && r.y - d.initialY == clientY - d.startY
    ensures r == s.(x := r.x, y := r.y)
  {
    s.(x := d.initialX + (clientX - d.startX), y := d.initialY + (clientY - d.startY))
  }

  /** Inside the window the clamped and the free drag put the sticker in the same place. */
  lemma ClampedAgreesInside(s: Sticker, d: Drag, clientX: int, clientY: int, innerWidth: int, innerHeight: int)
    requires 0 <= d.initialX + (clientX - d.startX) <= innerWidth - s.width
    requires 0 <= d.initialY + (clientY - d.startY) <= innerHeight - s.height
    ensures Moved(s, d, clientX, clientY, innerWidth, innerHeight) == MovedFreely(s, d, clientX, clientY)
  {
  }

  /**
   * The script's `doDrag`: moves the sticker by the pointer delta, then
   * attaches it by the same `detectBlockCollision` rule.
   */
  method DoDragFreely(app: App, id: string, d: Drag, clientX: int, clientY: int, box: Rect, blocks: seq<Placed>)
    modifies app`stickers
    ensures var i := FindIndex(old(app.stickers), StickerId(id));
      if i.None? then app.stickers == old(app.stickers)
      else app.stickers == old(app.stickers)[i.value :=
        MovedFreely(old(app.stickers)[i.value], d, clientX, clientY).(parentBlockId := CollisionParent(box, blocks))]
  {
    var i := FindIndex(app.stickers, StickerId(id));
    if i.None? {
      return;
    }
    app.stickers := app.stickers[i.value := MovedFreely(app.stickers[i.value], d, clientX, clientY)];
    DetectBlockCollision(app, i.value, box, blocks);
  }

  /** `AppState.password`. */
  const Password: string := "123456"

  /**
   * `authenticate`: the trimmed input must equal the password; on success
   * edit mode is entered, on failure nothing changes.
   */
  method Authenticate(app: App, input: string) returns (ok: bool)
    modifies app`isEditMode
    ensures ok <==> Trim(input) == Password
    ensures app.isEditMode == (ok || old(app.isEditMode))
  {
    ok := Trim(input) == Password;
    if ok {
      app.isEditMode := true;
    }
  }

  /** Surrounding white space does not matter to the password check. */
  lemma AuthenticateIgnoresSpaces(pre: string, post: string)
    requires forall i :: 0 <= i < |pre| ==> IsSpace(pre[i])
    requires forall i :: 0 <= i < |post| ==> IsSpace(post[i])
    ensures Trim(pre + Password + post) == Password
  {
    TrimSurrounded(pre, Password, post);
  }

  /**
   * The hero text double-click handler. Outside edit mode it only shows a
   * notification and changes nothing; in edit mode it runs `ApplyHeroEdit`.
   */
  method EditHeroText(app: App, i: nat, newValue: Option<string>, changeColor: bool, choice: Option<string>)
    requires i < |app.hero|
    modifies app`hero, app`saved
    ensures !app.isEditMode ==> app.hero == old(app.hero) && app.saved == old(app.saved)
    ensures app.isEditMode ==>
      var t := if newValue.Some? then old(app.hero)[i].(text := newValue.value) else old(app.hero)[i];
      var c := if changeColor then ChosenColor(choice) else None;
      app.hero == old(app.hero)[i := if c.Some? then t.(color := c.value) else t]
    ensures app.isEditMode && newValue.None? && (!changeColor || ChosenColor(choice).None?) ==> app.saved == old(app.saved)
    ensures app.isEditMode && (newValue.Some? || (changeColor && ChosenColor(choice).Some?)) ==>
      app.saved == old(app.saved).(hero := Stored(HeroData(app.hero)))
  {
    if !app.isEditMode {
      return;
    }
    ApplyHeroEdit(app, i, newValue, changeColor, choice);
  }

  /**
   * The edit-mode part of the handler: a prompt answer (`None` when
   * cancelled) replaces the text and is saved; then, if the user wants
   * another colour, a valid palette number sets it and is saved.
   */
  method ApplyHeroEdit(app: App, i: nat, newValue: Option<string>, changeColor: bool, choice: Option<string>)
    requires i < |app.hero|
    modifies app`hero, app`saved
    ensures var t := if newValue.Some? then old(app.hero)[i].(text := newValue.value) else old(app.hero)[i];
      var c := if changeColor then ChosenColor(choice) else None;
      app.hero == old(app.hero)[i := if c.Some? then t.(color := c.value) else t]
    ensures newValue.None? && (!changeColor || ChosenColor(choice).None?) ==> app.saved == old(app.saved)
    ensures newValue.Some? || (changeColor && ChosenColor(choice).Some?) ==>
      app.saved == old(app.saved).(hero := Stored(HeroData(app.hero)))
  {
    var c := if changeColor then ChosenColor(choice) else None;
    var t := if newValue.Some? then app.hero[i].(text := newValue.value) else app.hero[i];
    if newValue.Some? {
      app.hero := app.hero[i := t];
      SaveHeroText(app);
    }
    assert app.hero == old(app.hero)[i := t];
    if c.Some? {
      app.hero := app.hero[i := t.(color := c.value)];
      SaveHeroText(app);
    }
  }
}
