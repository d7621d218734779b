# A verified model of a personal-portfolio layout editor

The repository holds about ten near-duplicate variants of a browser page editor for a designer's portfolio: `myonly79`, `myonly`, `deepseekooooo`, `qwenooooo`, `22222`, `grokooooo` and `chatgptxxxxx`. In edit mode the owner can:

- reorder, resize, add and delete the page's project blocks;
- drop text, image and video stickers that attach themselves to the block they cover most;
- link text, change the hero text and its colour, and lock editing behind a password.

Everything is kept in `localStorage`.

This project models, one Dafny module per source file, the logic under that DOM:

- **Attachment.** The rectangle overlap, the running arg-max over the blocks, and each variant's threshold for making a block a sticker's parent (`Geometry`, and the `*Stickers` modules).
- **Collections.** Block and sticker lists and dictionaries that the editor creates, deletes, links, moves, resizes, reorders and renumbers. These are classes whose methods change their fields as the handlers do, each proved against a specification function (`*Blocks`, `*Stickers`, `Myonly79State`, `Records`, `Dict`, `Sorting`).
- **Persistence.** The stored records, their read-modify-write updates and load fallbacks. A storage slot is absent, unparseable or holds a value (`Storage`); `JSON.stringify` followed by `JSON.parse` is taken as the identity.
- **Small state machines.**
  - the password lockout and the security-question reset (`*Auth`, with `btoa`/`atob` per section 4 of RFC 4648 in `Base64`);
  - the cursor's particle pool (`MyonlyCursor`);
  - the hero-text editor (`Hero`, `QwenEditorUi`, `Myonly79Script`).
- **Text helpers.** `trim`, `parseInt`, `rgb(...)` and `#rrggbb` colour conversions, and `String.prototype.replace` (`JsText`, `MyonlyEditorUi`, `GrokScript`, `ChatgptStickers`).

Measurements the browser makes become parameters:

- `getBoundingClientRect`, `offsetWidth`, window sizes and scroll offsets become rectangles and integers;
- the DOM order of a list becomes a sequence;
- `confirm`, `prompt`, `Date.now()`, `Math.random()`, the chosen file's object URL and the live text selection become arguments.

Timers become explicit steps.

Where a handler as written fails or loses data, the model keeps that behaviour in a member, exhibits it with a lemma or the member's own contract, and gives the corrected behaviour beside it (see "## Findings"). Where a later handler can only be reached once such a failure is corrected, its member describes the corrected page, as "## Left out" says.

## Model

| member | source | states |
|---|---|---|
| Storage.ReadOr | myonly/stickers.js:774 | `JSON.parse(localStorage.getItem(k) \|\| fallback)`: a stored value is read back, a missing entry gives the fallback, and only an unparseable entry fails |
| Dict.Empty | myonly/stickers.js:774 | the `'{}'` fallback is a valid, empty dictionary |
| Dict.Put | myonly/stickers.js:823-827 | `stickers[id] = data` maps the key to the new value, leaves every other key as it was, and keeps the key order with a new key last |
| Dict.Remove | myonly/stickers.js:843-847 | `delete stickers[id]` removes exactly that key, leaves every other key as it was, and keeps the remaining keys in their order |
| Dict.Values | myonly/stickers.js:852-855 | `Object.values(stickers)` lists one value per key, in key order |
| Geometry.Span | chatgptxxxxx/stickers.js:124-125 | the clipped interval overlap is never negative, and it is positive exactly when the two intervals properly intersect |
| Geometry.Overlap | chatgptxxxxx/stickers.js:124-126 | the overlap area is never negative, and it is positive exactly when the rectangles properly intersect |
| Geometry.OverlapSymmetric | myonly/stickers.js:250-259 | the overlap is symmetric in its two rectangles |
| Geometry.OverlapWithinAreas | myonly/stickers.js:250-259 | the overlap is at most the area of either rectangle |
| Geometry.StrictOverlap | qwenooooo/stickers.js:137-143 | the strictly intersecting test accepts exactly the pairs with a positive overlap, and then its area is the same as `Overlap` |
| Geometry.Areas | chatgptxxxxx/stickers.js:121-126 | one overlap per block, in page order |
| Geometry.FirstMax | chatgptxxxxx/stickers.js:117-134 | the winner of the strict running maximum: its area is above the floor, it is at least every other area, and it is strictly above every earlier area; there is no winner exactly when no area exceeds the floor |
| Geometry.FirstMaxUnique | chatgptxxxxx/stickers.js:117-134 | the three properties above pick the winner out uniquely |
| Geometry.ThresholdAfterScan | deepseekooooo/stickers.js:350-376 | filtering areas by a threshold inside the loop picks the same block as a plain scan whose winner is kept only above that threshold |
| Geometry.ScanMax | chatgptxxxxx/stickers.js:117-134 | the loop returns the `FirstMax` winner and its area |
| Base64.ValueOfChar | myonly/auth.js:192 | each value of the base 64 alphabet is read back as itself |
| Base64.Encode | myonly/auth.js:192 | the encoding has a length that is a multiple of 4, namely 4 times the number of started 3-byte groups |
| Base64.Decode | deepseekooooo/auth.js:77 | decoding succeeds exactly when the text without white space and padding has no length of the form 4k+1 and only alphabet characters, and then gives the bytes of those characters' 6-bit values |
| Base64.DecodeEncode | deepseekooooo/auth.js:72-77 | decoding an encoding gives back the bytes |
| Base64.BtoaUnits | myonly/auth.js:192 | `btoa` succeeds exactly when every code unit is at most 0xFF |
| Base64.Btoa | myonly/auth.js:192 | `btoa(s)` succeeds exactly for Latin-1 strings |
| Base64.Atob | deepseekooooo/auth.js:77 | what `atob` returns is a Latin-1 string |
| Base64.AtobBtoa | deepseekooooo/auth.js:72-77 | `atob` undoes `btoa` on every string `btoa` accepts |
| JsText.TrimStart | myonly/editor-ui.js:310 | `trimStart` removes exactly the leading white space |
| JsText.TrimEnd | myonly/editor-ui.js:310 | `trimEnd` removes exactly the trailing white space |
| JsText.Trim | chatgptxxxxx/stickers.js:153 | `trim` returns a substring with no white space at either end, and it is empty exactly when the input is all white space |
| JsText.TrimOfTrimmed | chatgptxxxxx/stickers.js:173 | trimming is idempotent on a string with no white space at either end |
| JsText.TrimSurrounded | chatgptxxxxx/stickers.js:173 | a non-empty string surrounded by any white space is what `trim` returns |
| JsText.ParseInt | myonly79/script.js:360 | `parseInt` gives a number only when the text contains a digit |
| JsText.ParseIntDecimal | myonly79/script.js:360 | white space, a sign and a run of decimal digits followed by a non-digit read as the signed value of the digits |
| JsText.ParseIntHex | myonly79/script.js:360 | after `0x` or `0X` the run of hexadecimal digits is read as the signed value, and the result is NaN when no digit follows the prefix |
| JsText.ParseIntNoDigit | myonly79/script.js:360 | the result is NaN when no digit follows the white space and the sign |
| JsText.ParseIntOfDecimal | myonly79/script.js:360 | `parseInt` reads back every number that `String` writes |
| JsText.Decimal | chatgptxxxxx/blocks.js:34 | `String(n)` is a non-empty run of digits with no leading zero |
| JsText.DecimalValue | chatgptxxxxx/blocks.js:34 | the digits `String(n)` writes have the value n |
| JsText.Hex | myonly/editor-ui.js:510-512 | `n.toString(16)` is lower-case hexadecimal digits with no leading zero; it has one digit exactly below 16 and at most two below 256 |
| JsText.HexValue | myonly/editor-ui.js:510-512 | the digits `toString(16)` writes have the value n |
| JsText.PadStart2 | myonly/editor-ui.js:510-512 | `padStart(2, '0')` leaves a long string alone and left-pads a short one with zeros to two characters |
| JsText.HexWide | grokooooo/script.js:162 | a value of 256 or more takes more than two hexadecimal digits |
| Records.FindIndex | myonly79/stickers.js:446 | `findIndex` returns the first matching index, and -1 (`None`) exactly when nothing matches |
| Records.RemoveFirst | myonly79/stickers.js:446-449 | `findIndex` then `splice(i, 1)` removes the first match and nothing else, and is a no-op when nothing matches |
| Records.UpdateFirst | myonly79/stickers.js:636-673 | writing to the record `find` returns changes only the first match, and nothing when there is none |
| Records.Filter | myonly79/stickers.js:682 | `filter` keeps exactly the elements that pass the test |
| Records.FilterAppend | myonly79/stickers.js:682 | `filter` keeps the order of the elements |
| Records.FilterInOrder | myonly79/stickers.js:682 | the result of `filter` is a subsequence of the array: its elements sit at increasing indices |
| Records.FilterCounts | myonly79/stickers.js:682 | `filter` keeps every copy of an element that passes and none of one that fails |
| Records.IndexOf | grokooooo/blocks.js:94 | `indexOf` returns the first position of the value, and -1 (`None`) exactly when it is absent |
| Records.AssignOrders | myonly79/blocks.js:363-369 | assigning panel orders keeps the records and their ids, in place |
| Records.AssignOrdersAt | myonly79/blocks.js:363-369 | with distinct ids, each record listed in the panel gets its panel index plus the base as its order, and every other record is unchanged |
| Records.RemoveOnlyMatch | deepseekooooo/stickers.js:485 | with unique ids, removing the first match equals filtering out the id |
| Sorting.InsertBy | myonly79/blocks.js:396 | one insertion step adds exactly one element and keeps all the others |
| Sorting.InsertBySorted | myonly79/blocks.js:396 | an insertion step keeps the list sorted by key |
| Sorting.SortBy | myonly79/blocks.js:394-406 | `sort((a, b) => a.order - b.order)` returns a permutation sorted by the key; `reorderBlocks` and the sorting panel of myonly79 use it keyed on `Myonly79Blocks.BlockOrder` |
| Sorting.SortBySorted | myonly79/blocks.js:396 | sorting a list that is already sorted leaves it as it is |
| Sorting.SortByIdempotent | myonly79/blocks.js:396 | sorting twice is the same as sorting once |
| Sorting.SortByStable | myonly79/blocks.js:396 | the sort is stable: elements with equal order keep their relative order |
| Hero.ApplyHero | myonly79/script.js:100-116 | loading the hero data keeps every element's key; it skips `_color` keys and keys with no element, and it touches only the first element for each key |
| Hero.HeroDataAt | myonly79/script.js:148-155 | the saved dictionary holds each element's text, and its `_color` entry holds the colour exactly when the element has one |
| Hero.HeroDataKeys | myonly79/script.js:148-155 | every saved key is an element key or that key with `_color` appended |
| Hero.HeroRoundTrip | myonly79/script.js:100-155 | saving and then loading onto a page with the same keys restores every text and every colour that was set |
| Hero.ChosenColor | myonly79/script.js:359-364 | the choice is accepted exactly when it is non-empty and `parseInt` reads a number from 1 to 12, and then it names a palette entry |
| Hero.ChooseByNumber | myonly79/script.js:359-364 | typing the number n from 1 to 12 picks palette entry n |
| Base64.RemoveSpaces | deepseekooooo/auth.js:77 | `atob` ignores ASCII white space: what remains has none, and a text without any is left as it is |
| Myonly79State.App.constructor | myonly79/script.js:8-18 | the application state starts in preview mode with no blocks and no stickers |
| Myonly79State.SaveData | myonly79/script.js:135-144 | `saveData` stores the current blocks and stickers under their keys and leaves the other entries alone |
| Myonly79State.LoadSavedState | myonly79/script.js:87-133 | a load where any entry does not parse falls back to the home block alone with no stickers; otherwise each present entry replaces its part of the state |
| Myonly79State.LoadSavedData | myonly79/script.js:87-133 | after loading, the state is what `LoadSavedState` gives for the stored entries |
| Myonly79State.SaveThenLoad | myonly79/script.js:89-98 | what `saveData` wrote is read back unchanged by `loadSavedData` |
| Myonly79State.SaveHeroText | myonly79/script.js:146-161 | `saveHeroText` stores the dictionary of hero texts and set colours, and nothing else |
| Myonly79State.InitHeroText | myonly79/script.js:312-332 | the hero restore throws exactly on an unparseable entry; otherwise it applies the stored dictionary, or changes nothing when there is none |
| Myonly79Stickers.CreateSticker | myonly79/stickers.js:9-36 | outside edit mode nothing is created and nothing changes; in edit mode exactly one new record of that type is appended and saved |
| Myonly79Stickers.Clamp | myonly79/stickers.js:328-329 | the clamped position is at least 0, at most the limit whenever the limit is not negative, and equal to the input when the input is in range |
| Myonly79Stickers.StartDrag | myonly79/stickers.js:301-320 | a press outside edit mode, on the delete button or on text being edited changes nothing; otherwise the sticker is lifted to z-index 9999 and the start point is recorded |
| Myonly79Stickers.DoDrag | myonly79/stickers.js:322-339 | the new position is the start position plus the pointer delta, clamped to the window; then the parent is set by `CollisionParent` |
| Myonly79Stickers.StopDrag | myonly79/stickers.js:341-352 | releasing sets z-index 1000 on that sticker only and saves both arrays |
| Myonly79Stickers.CollisionParent | myonly79/stickers.js:359-404 | there is no parent exactly when no overlap exceeds 1000; otherwise the parent is one of the blocks |
| Myonly79Stickers.DetectBlockCollision | myonly79/stickers.js:359-404 | only that sticker's parent changes, and it becomes `CollisionParent` |
| Myonly79Stickers.CollisionParentThreshold | myonly79/stickers.js:367-401 | the script's scan with the threshold applied after the loop picks the first block with the largest overlap, and only when that overlap exceeds 1000 |
| Myonly79Stickers.PerformDeleteSticker | myonly79/stickers.js:444-461 | the first record with the id is removed, and both arrays are saved |
| Myonly79Stickers.DeleteSticker | myonly79/stickers.js:406-442 | outside edit mode, or without confirmation, nothing changes; otherwise the sticker is deleted as `PerformDeleteSticker` does |
| Myonly79Stickers.DeleteRemovesExactly | myonly79/stickers.js:446-449 | with unique ids, deleting removes exactly the sticker with that id and keeps every other one in order |
| Myonly79Stickers.UpdateSticker | myonly79/stickers.js:564-673 | the shared shape of the updates: the answer is true exactly when the id exists; only that record changes; nothing is saved when the id is unknown |
| Myonly79Stickers.AddLinkToSticker | myonly79/stickers.js:564-591 | the answer is true exactly when the id exists; the link of only that record becomes the URL and the blocks and stickers are saved; an unknown id changes nothing, the stored copy included |
| Myonly79Stickers.RemoveLinkFromSticker | myonly79/stickers.js:593-618 | the answer is true exactly when the id exists; the link of only that record becomes null and the blocks and stickers are saved; an unknown id changes nothing, the stored copy included |
| Myonly79Stickers.Assign | myonly79/stickers.js:625-634 | `Object.assign` replaces exactly the fields the patch carries and keeps the others |
| Myonly79Stickers.AssignIdempotent | myonly79/stickers.js:625-634 | an empty patch changes nothing, and a patch applied twice has the effect of one |
| Myonly79Stickers.UpdateStickerData | myonly79/stickers.js:625-634 | the patch is merged into the record with the id, and the answer says whether it existed; when it did the blocks and stickers are saved, otherwise the stored copy is unchanged |
| Myonly79Stickers.ResizeSticker | myonly79/stickers.js:636-654 | only the size of the matching record is overwritten, with no minimum, and the answer says whether it existed; when it did the blocks and stickers are saved, otherwise the stored copy is unchanged |
| Myonly79Stickers.UpdateStickerPosition | myonly79/stickers.js:656-673 | only the position of the matching record is overwritten, and the answer says whether it existed; when it did the blocks and stickers are saved, otherwise the stored copy is unchanged |
| Myonly79Stickers.StickersByBlockId | myonly79/stickers.js:681-683 | the result is exactly the stickers whose parent is that block, each as often as in the list, in list order |
| Myonly79Blocks.DeleteBlock | myonly79/blocks.js:234-267 | the first block with the id is removed, every sticker attached to it is removed, and both arrays are saved; the other blocks keep their fields, `order` included |
| Myonly79Blocks.DeleteCascade | myonly79/blocks.js:242-251 | no sticker is left on the deleted block, and the stickers on other blocks or on none all stay, in order |
| Myonly79Blocks.DeleteBlockExactly | myonly79/blocks.js:236-238 | with unique block ids, deleting removes exactly that block and keeps the rest in order |
| Myonly79Blocks.ShowDeleteConfirm | myonly79/blocks.js:190-232 | the home block is never deleted, nothing happens outside edit mode or without confirmation, and otherwise the block goes as `DeleteBlock` says |
| Myonly79Blocks.ResizedHeight | myonly79/blocks.js:291-295 | the new height is at least 200 and at least the dragged height, and it is one of the two, so a block can grow and shrink |
| Myonly79Blocks.StartResize | myonly79/blocks.js:275-286 | a resize starts exactly in edit mode, recording the pointer and the current height |
| Myonly79Blocks.DoResize | myonly79/blocks.js:288-297 | only the resized block's height changes, to `ResizedHeight` |
| Myonly79Blocks.StopResize | myonly79/blocks.js:298-305 | the resize ends and the blocks, with the height the drag left, are saved together with the stickers |
| Myonly79Blocks.SortingPanel | myonly79/blocks.js:309-336 | the panel never lists the home block |
| Myonly79Blocks.AssignPanelOrders | myonly79/blocks.js:363-369 | the order loop sets the i-th panel item's block to order i + 1, as `AssignOrders` with base 1 |
| Myonly79Blocks.PanelOrders | myonly79/blocks.js:363-369 | with unique ids, the block at panel position i gets order i + 1, and a block not in the panel, home included, keeps its order and every other field |
| Myonly79Blocks.HandleDragEndUnbound | myonly79/blocks.js:359-376 | as written, the orders are assigned in memory and then `this.reorderBlocks()` throws, so nothing is saved |
| Myonly79Blocks.HandleDragEnd | myonly79/script.js:654-671 | the intended drag end assigns the panel orders and saves them |
| Myonly79Blocks.UnboundDragEndLosesOrder | myonly79/blocks.js:327-373 | with blocks a (order 1) and b (order 2) the panel lists [a, b]; since the unbound drag-over moves nothing, the drag end gives every block the order it had, while the panel [b, a] a working drag-over would produce puts b first |
| Myonly79Blocks.HandleDragOverUnbound | myonly79/blocks.js:328-353 | as written, the drag-over listener throws at `this.getDragAfterElement` and the panel stays as it was |
| Myonly79Blocks.HandleDragOver | myonly79/script.js:638-651 | the intended drag-over keeps the same items, puts the dragged one right before the item `DragAfter` picks among the others (last when there is none), and keeps the others in order |
| Myonly79Blocks.DragAfter | myonly79/blocks.js:378-392 | the chosen item's midpoint lies below y and is the closest such midpoint, the first one on a tie; there is none exactly when y is below no midpoint |
| Myonly79Blocks.GetDragAfterElement | myonly79/blocks.js:378-392 | the `reduce` loop returns `DragAfter` |
| Myonly79Blocks.ReorderBlocks | myonly79/blocks.js:394-406 | the container keeps the same elements and ends with the blocks' elements in ascending order |
| Myonly79Blocks.ReorderStep | myonly79/blocks.js:398-403 | one `appendChild` step keeps the elements and extends the ordered tail by the next present block |
| Myonly79Blocks.MoveToEnd | myonly79/blocks.js:401 | `appendChild` of a child moves it to the end without losing or duplicating anything |
| Myonly79Blocks.AddNewBlock | myonly79/blocks.js:408-433 | outside edit mode nothing changes; otherwise one block with order equal to the old count, height 400 and colour `#f8f9fa` is appended and saved |
| Myonly79Blocks.AssignBlock | myonly79/blocks.js:440-448 | `Object.assign` replaces exactly the fields the patch carries and keeps the id |
| Myonly79Blocks.UpdateBlockData | myonly79/blocks.js:440-448 | the patch is merged into the block with the id and saved; the answer is false and nothing changes when there is none |
| Myonly79Script.MovedFreely | myonly79/script.js:907-925 | the script's drag moves the sticker by exactly the pointer delta, with no bound, and changes nothing else |
| Myonly79Script.ClampedAgreesInside | myonly79/script.js:907-925 | inside the window the clamped drag and the free drag put the sticker in the same place |
| Myonly79Script.DoDragFreely | myonly79/script.js:907-925 | the sticker moves freely and then gets its parent by the collision rule |
| Myonly79Script.Authenticate | myonly79/script.js:446-461 | the login succeeds exactly when the trimmed input equals the password, and edit mode is entered only then |
| Myonly79Script.AuthenticateIgnoresSpaces | myonly79/script.js:447 | white space around the password does not matter |
| Myonly79Script.EditHeroText | myonly79/script.js:334-366 | outside edit mode nothing changes and nothing is saved; in edit mode a prompt answer replaces the text, and a valid palette choice sets the colour, each saved; nothing is saved when neither happens |
| Myonly79Script.ApplyHeroEdit | myonly79/script.js:340-365 | in edit mode, a prompt answer replaces the text and a valid palette choice sets the colour, each saved; nothing is saved when neither happens |
| Myonly79Auth.CeilMinutes | myonly79/auth.js:18 | `Math.ceil(ms / 60000)` is the least whole number of minutes that covers the milliseconds |
| Myonly79Auth.CheckLock | myonly79/auth.js:14-31 | the account is locked exactly while a lock runs, reporting at least one minute; an expired lock is cleared together with the count of attempts |
| Myonly79Auth.ValidateValid | myonly79/auth.js:33-72 | every attempt keeps the state valid |
| Myonly79Auth.SuccessIffUnlocked | myonly79/auth.js:33-72 | the correct password is accepted exactly when no lock runs, and it resets the count |
| Myonly79Auth.LockedRejectsAll | myonly79/auth.js:34-41 | while the lock runs, every password fails and nothing changes |
| Myonly79Auth.WrongCountsDown | myonly79/auth.js:50-71 | a wrong password reports how many attempts are left, and that number falls by one |
| Myonly79Auth.ThreeStrikes | myonly79/auth.js:50-71 | from the start, three wrong passwords lock the account for fifteen minutes, and the correct password is refused until then |
| Myonly79Auth.ExpiredLockClears | myonly79/auth.js:14-31 | once the lock's time has come, the correct password is accepted again |
| Myonly79Auth.Auth.constructor | myonly79/auth.js:6-12 | the initial state is not authenticated, with no attempts and no lock |
| Myonly79Auth.Auth.IsLocked | myonly79/auth.js:14-31 | the method updates the state as `CheckLock` does |
| Myonly79Auth.Auth.ValidatePassword | myonly79/auth.js:33-72 | the method updates the state as `Validate` does |
| Myonly79Auth.Auth.Logout | myonly79/auth.js:74-81 | only the authenticated flag changes |
| MyonlyAuth.Click | myonly/auth.js:22-48 | a click more than 500 ms after the last one restarts the count at 1; the dialog is asked for exactly when the count reaches 3, and then the count goes back to 0 |
| MyonlyAuth.ClickCountBounded | myonly/auth.js:28-40 | between clicks the count stays within 0..2 |
| MyonlyAuth.ThreeQuickClicks | myonly/auth.js:28-40 | three clicks, each within 500 ms of the one before, ask for the dialog on the third and not before |
| MyonlyAuth.SlowClickRestarts | myonly/auth.js:30-31 | a slow click restarts the count and never asks for the dialog |
| MyonlyAuth.Shifted | myonly/auth.js:188-191 | each UTF-16 code unit is shifted up by one, modulo 2^16 |
| MyonlyAuth.SimpleEncrypt | myonly/auth.js:185-193 | the loop builds the shifted units and then applies `btoa`, which fails past 0xFF |
| MyonlyAuth.BtoaInjective | myonly/auth.js:192 | `btoa` of Latin-1 units is one-to-one |
| MyonlyAuth.SimpleEncryptInjective | myonly/auth.js:185-193 | where `btoa` accepts both, equal encryptions mean equal texts, so comparing encryptions compares the texts |
| MyonlyAuth.SecurityAnswerUnencodable | myonly/auth.js:157-183 | the encryption of the stored Chinese security answer is rejected by `btoa` |
| MyonlyAuth.AuthSystem.constructor | myonly/auth.js:3-11 | a stored empty password counts as none; edit mode is on exactly when the stored flag is `'true'` |
| MyonlyAuth.AuthSystem.ShowAuthModal | myonly/auth.js:105-114 | the password dialog opens only outside edit mode |
| MyonlyAuth.AuthSystem.HandleClick | myonly/auth.js:22-48 | clicks on interactive elements are ignored; other clicks advance the counter as `Click` says and open the dialog on the third |
| MyonlyAuth.AuthSystem.Authenticate | myonly/auth.js:137-155 | login succeeds exactly when the trimmed input is non-empty and equals the password; success enters edit mode and closes the dialog; failure changes nothing |
| MyonlyAuth.AuthSystem.EnterEditMode | myonly/auth.js:195-211 | edit mode is on and the flag is stored |
| MyonlyAuth.AuthSystem.ExitEditMode | myonly/auth.js:213-229 | edit mode is off and the flag is removed |
| MyonlyAuth.AuthSystem.ToggleEditMode | myonly/auth.js:259-265 | in edit mode the toggle leaves it; otherwise it only opens the password dialog |
| MyonlyAuth.AuthSystem.VerifySecurityAnswer | myonly/auth.js:157-183 | as written, a blank answer is refused, and any other answer throws, so the password is never reset |
| MyonlyAuth.AuthSystem.VerifySecurityAnswerAsIntended | myonly/auth.js:157-183 | as intended, the right trimmed answer resets the password and moves to the password dialog, and any other answer changes nothing |
| MyonlyBlocks.InsertIndex | myonly/blocks.js:128-143 | the index is the first item other than the dragged one whose centre lies below the dragged centre, and -1 exactly when there is none |
| MyonlyBlocks.ReorderedShape | myonly/blocks.js:197-206 | with distinct ids, the reorder puts the unnamed blocks first, in their old order, then the named ones in the given order, and skips ids with no block |
| MyonlyBlocks.PanelOrderUnchanged | myonly/blocks.js:116-183 | the drag only restyles, so the end of the drag reorders the content by its own order and leaves it as it was |
| MyonlyBlocks.ResizeStep | myonly/blocks.js:328-334 | the height is `max(200, startHeight + deltaY)`, and the arrow is `↓` exactly when deltaY > 0 |
| MyonlyBlocks.AppendLog | myonly/blocks.js:543-556 | a push with no duplicate check lists the value once more and keeps the earlier entries; only an unparseable entry fails |
| MyonlyBlocks.SavedTwiceListedTwice | myonly/blocks.js:543-549 | saving the same id twice lists it twice |
| MyonlyBlocks.ApplyHeights | myonly/blocks.js:569-575 | a stored height is applied exactly to the ids that name a block; every other block keeps its own height |
| MyonlyBlocks.BlocksManager.constructor | myonly/blocks.js:7-28 | the manager starts with the page's blocks listed in the panel and no drag |
| MyonlyBlocks.BlocksManager.StartDragSort | myonly/blocks.js:91-114 | a drag starts with that block as the dragged one |
| MyonlyBlocks.BlocksManager.ReorderContentBlocks | myonly/blocks.js:197-206 | the content becomes `Reordered(content, order)` |
| MyonlyBlocks.BlocksManager.HandleDragEnd | myonly/blocks.js:166-195 | with no dragged item nothing happens; otherwise the content is reordered by the panel and the drag ends |
| MyonlyBlocks.BlocksManager.HandleResizeMove | myonly/blocks.js:326-335 | only that block's height changes, to `ResizeStep`, and the arrow is shown as it says |
| MyonlyBlocks.BlocksManager.SaveBlockHeight | myonly/blocks.js:534-538 | only that id's height changes in the stored map |
| MyonlyBlocks.BlocksManager.SaveDeletedBlock | myonly/blocks.js:543-549 | the id is appended to the stored list of deleted blocks |
| MyonlyBlocks.BlocksManager.SaveNewBlock | myonly/blocks.js:552-556 | the new block is appended to the stored list of new blocks |
| MyonlyBlocks.BlocksManager.HandleDeleteBlock | myonly/blocks.js:356-398 | the question differs for the four default blocks, but the effect does not: a confirmed delete removes the block and logs it, and otherwise nothing changes |
| MyonlyBlocks.BlocksManager.AddNewBlock | myonly/blocks.js:414-448 | the new block `block-<time>` goes last, the panel lists the content again, and the block is logged |
| MyonlyBlocks.BlocksManager.ApplyStoredHeights | myonly/blocks.js:569-575 | the loop gives the heights as `ApplyHeights` does |
| MyonlyBlocks.BlocksManager.LoadFromStorage | myonly/blocks.js:561-581 | a stored order reorders the blocks, stored heights go to existing blocks, and an unparseable read ends the load where it happens |
| MyonlyCursor.NewParticle | myonly/cursor.js:43-102 | a new particle is alive, fully opaque, at rest, not hovering, at the given point |
| MyonlyCursor.RandomSize | myonly/cursor.js:403-405 | `Math.floor(Math.random() * 91) + 30` is a whole number from 30 to 120 |
| MyonlyCursor.DyingFrames | myonly/cursor.js:322-332 | a dying main particle is dead after n frames exactly when its timer was at most 16·n; until then the timer has dropped by 16 a frame |
| MyonlyCursor.PressTakesThirteenFrames | myonly/cursor.js:161-162 | the 200 ms of a press make the main particle die on the thirteenth frame, not before |
| MyonlyCursor.Step | myonly/cursor.js:334-356 | a falling particle moves down by a sixtieth of its speed and dies once it is below the window by its size; a dead one loses 0.05 of opacity; alive and dying ones are untouched |
| MyonlyCursor.DeadFades | myonly/cursor.js:346-350 | a dead particle stays dead and loses 0.05 of opacity every frame |
| MyonlyCursor.FadedAfterTwentyFrames | myonly/cursor.js:358-370 | a particle that died fully opaque is removed by the clean-up after twenty frames, and not before |
| MyonlyCursor.Newest | myonly/cursor.js:372-376 | the `shift` loop leaves the newest ten particles, or all of them when there are at most ten |
| MyonlyCursor.Cleaned | myonly/cursor.js:358-381 | the clean-up leaves at most ten particles, all of them unfinished and from the pool |
| MyonlyCursor.SpliceStep | myonly/cursor.js:361-369 | one backwards `splice` pass extends the filtered suffix by one index |
| MyonlyCursor.CursorParticleManager.constructor | myonly/cursor.js:6-41 | the pool starts empty; on a mobile user agent `init` returns early and there is no main particle, and on a desktop one main particle starts in the middle of the window |
| MyonlyCursor.CursorParticleManager.CreateParticle | myonly/cursor.js:43-102 | only a particle that is not the main one joins the pool |
| MyonlyCursor.Followed | myonly/cursor.js:138-148 | a spring-follow step changes only the position and the velocity, and the position moves by exactly the new velocity |
| MyonlyCursor.FollowAtRest | myonly/cursor.js:138-148 | a particle at rest on the pointer does not move |
| MyonlyCursor.FollowFromRest | myonly/cursor.js:57-58 | from rest, with spring 0.1 and friction 0.85, one move covers 8.5 % of the way to the pointer and never passes it |
| MyonlyCursor.CursorParticleManager.HandleMouseMove | myonly/cursor.js:135-151 | with no main particle nothing changes; otherwise the main particle takes one `Followed` step towards the pointer |
| MyonlyCursor.CursorParticleManager.HandleMouseClick | myonly/cursor.js:156-183 | a press makes the main particle die with 200 ms left and adds a falling copy at 50 pixels a second; with no main particle nothing changes |
| MyonlyCursor.CursorParticleManager.CreateNewMainParticle | myonly/cursor.js:259-282 | a new main particle appears where the pointer was pressed |
| MyonlyCursor.CursorParticleManager.HandleMouseOver | myonly/cursor.js:185-199 | a clickable target is taken only when nothing is hovered yet; otherwise nothing changes |
| MyonlyCursor.CursorParticleManager.HandleMouseOut | myonly/cursor.js:201-213 | hovering ends only when the pointer leaves the hovered target itself |
| MyonlyCursor.CursorParticleManager.UpdateParticles | myonly/cursor.js:306-320 | one frame steps the main particle and each pool particle as `Step` says, keeping the pool's size and order |
| MyonlyCursor.CursorParticleManager.SpliceUnless | myonly/cursor.js:361-369 | the backwards `splice` loop removes exactly the rejected particles and keeps the others in order |
| MyonlyCursor.CursorParticleManager.CleanupParticles | myonly/cursor.js:358-381 | the pool becomes `Cleaned` of the old pool |
| MyonlyCursor.CursorParticleManager.CleanupOffscreenParticles | myonly/cursor.js:383-401 | exactly the particles still on screen remain, in order |
| MyonlyEditorUi.Lighter | myonly/editor-ui.js:400-402 | a present component is raised by 40 and capped at 255; a missing one is `NaN` |
| MyonlyEditorUi.GetBrightColor | myonly/editor-ui.js:392-409 | black stays black, and a colour with no digits is returned as it is |
| MyonlyEditorUi.RgbRuns | myonly/editor-ui.js:398 | the digit runs of `rgb(r, g, b)` are r, g and b |
| MyonlyEditorUi.RgbBlack | myonly/editor-ui.js:393 | `rgb(r, g, b)` with r > 0 is not treated as black |
| MyonlyEditorUi.BrightComponents | myonly/editor-ui.js:398-405 | a non-black colour with three digit runs comes back as `rgb(...)` of its components raised by 40, capped at 255 |
| MyonlyEditorUi.BrightTwice | myonly/editor-ui.js:392-409 | brightening twice raises each component by 80, capped at 255 |
| MyonlyEditorUi.BrightMissingRuns | myonly/editor-ui.js:398-405 | a colour with one digit run prints `NaN` for the two missing components |
| MyonlyEditorUi.MatchRgb | myonly/editor-ui.js:508 | a match of the `rgb(...)` pattern starts with `rgb(` |
| MyonlyEditorUi.MatchRgbOfRgb | myonly/editor-ui.js:508 | the pattern reads r, g and b back from `rgb(r, g, b)` |
| MyonlyEditorUi.FindRgbLeftmost | myonly/editor-ui.js:508 | `match` finds the leftmost match, and nothing when the pattern matches nowhere |
| MyonlyEditorUi.RgbToHex | myonly/editor-ui.js:503-518 | a missing or empty colour gives null; a `#` colour is returned as it is; otherwise the first `rgb(r, g, b)` gives `#` and the three components in hexadecimal, and no match gives null |
| MyonlyEditorUi.HexPairValue | myonly/editor-ui.js:510-512 | a component below 256 takes exactly two digits, which read back as the component |
| MyonlyEditorUi.HexPairWide | myonly/editor-ui.js:510-512 | a component of 256 or more is not clamped and takes more than two digits |
| MyonlyEditorUi.HexColorValues | myonly/editor-ui.js:510-513 | components up to 255 give a seven-character `#rrggbb` whose pairs read back as the components |
| MyonlyEditorUi.RgbToHexOfRgb | myonly/editor-ui.js:503-518 | `rgb(r, g, b)` becomes the `#rrggbb` of the same components |
| MyonlyEditorUi.BrightToHex | myonly/editor-ui.js:392-518 | a brightened colour always converts to the `#rrggbb` of its brightened components |
| MyonlyStickers.OverlapTarget | myonly/stickers.js:219-248 | the target is the first block with the largest positive overlap, and only when that overlap exceeds 30 % of the sticker's area; otherwise there is none |
| MyonlyStickers.Resized | myonly/stickers.js:169-201 | `'se'` keeps the width at 100 or more and keeps the start aspect ratio, which overrides the 80 floor; `'sw'` gives `max(100, w0 - dx)` by `max(80, h0 + dy)`; any other corner keeps the size |
| MyonlyStickers.SeIgnoresHeightFloor | myonly/stickers.js:180-186 | the `'se'` corner can leave a sticker lower than 80 pixels: 400 by 100 dragged 300 to the left gives 100 by 25 |
| MyonlyStickers.WithEntry | myonly/stickers.js:773-818 | a field writer creates the entry when it is missing, rewrites only that entry, and leaves every other id alone |
| MyonlyStickers.ReadStore | myonly/stickers.js:774 | the read fails exactly when the stored text does not parse |
| MyonlyStickers.Recreated | myonly/stickers.js:852-886 | an entry of a known type is created again by its `create*Sticker`; an entry of an unknown type is skipped |
| MyonlyStickers.RestoreOne | myonly/stickers.js:852-906 | as intended, a stored sticker of a known type comes back under its own id with its size, link and colour, and no other id changes |
| MyonlyStickers.RestoreAllRestores | myonly/stickers.js:852-906 | with ids that are not repeated, the corrected loader puts every stored sticker of a known type back under its own id, with its stored size when both numbers are set |
| MyonlyStickers.StickersManager.constructor | myonly/stickers.js:7-25 | the manager starts with no sticker on the page, no active sticker and no resize |
| MyonlyStickers.StickersManager.CheckBlockOverlap | myonly/stickers.js:219-248 | only that sticker's target changes, to `OverlapTarget` |
| MyonlyStickers.StickersManager.AttachToBlock | myonly/stickers.js:264-282 | no target clears the parent; a target that exists becomes the parent; any other target changes nothing |
| MyonlyStickers.StickersManager.StartResize | myonly/stickers.js:144-167 | outside edit mode nothing changes; otherwise the sticker, the pointer, the size and the corner (`'se'` by default) are recorded |
| MyonlyStickers.StickersManager.HandleResizeMove | myonly/stickers.js:169-201 | only the active sticker's size changes, to `Resized`, and `'sw'` also shifts its left edge by the delta |
| MyonlyStickers.StickersManager.WriteEntry | myonly/stickers.js:773-818 | a field writer stores `WithEntry` of what it read, and stores nothing when the read throws |
| MyonlyStickers.StickersManager.SaveStickerPosition | myonly/stickers.js:773-781 | the element's left and top go into its entry, and nothing else changes |
| MyonlyStickers.StickersManager.SaveStickerSize | myonly/stickers.js:786-794 | the rendered size goes into the entry, and nothing else changes |
| MyonlyStickers.StickersManager.SaveStickerText | myonly/stickers.js:799-806 | the text goes into the entry, and nothing else changes |
| MyonlyStickers.StickersManager.SaveStickerLink | myonly/stickers.js:811-818 | the link goes into the entry, and nothing else changes |
| MyonlyStickers.StickersManager.SaveNewSticker | myonly/stickers.js:823-827 | the whole entry is replaced |
| MyonlyStickers.StickersManager.UpdateStickerImage | myonly/stickers.js:832-838 | only an existing entry gets the new source, and only then is anything stored |
| MyonlyStickers.StickersManager.DeleteStickerFromStorage | myonly/stickers.js:843-847 | exactly that key is removed |
| MyonlyStickers.StickersManager.ShowLinkDialog | myonly/stickers.js:632-662 | a cancelled prompt changes nothing; a blank answer removes the link on the element but leaves storage alone; any other answer becomes the link on the element and in storage |
| MyonlyStickers.StickersManager.LoadStickersFromStorage | myonly/stickers.js:852-906 | as written, each stored sticker is created again under a fresh id, which also stores a new entry |
| MyonlyStickers.StickersManager.RestoreStickersFromStorage | myonly/stickers.js:852-906 | as intended, the page gets `RestoreAll` of the stored values and the storage is unchanged |
| MyonlyStickers.LoadDuplicatesAndLosesSize | myonly/stickers.js:852-906 | loading one stored text sticker leaves two entries in storage, and the sticker on the page has the new id and not the stored size |
| DeepseekAuth.Reverse | deepseekooooo/auth.js:72 | `split('').reverse().join('')` puts code unit i at position n - 1 - i |
| DeepseekAuth.ReverseReverse | deepseekooooo/auth.js:72-77 | reversing twice gives the text back |
| DeepseekAuth.Encrypt | deepseekooooo/auth.js:70-73 | `encrypt` succeeds exactly on Latin-1 text |
| DeepseekAuth.Decrypt | deepseekooooo/auth.js:75-81 | `decrypt` gives the empty string when `atob` throws, and otherwise a string as long as the decoded text |
| DeepseekAuth.DecryptEncrypt | deepseekooooo/auth.js:70-81 | `decrypt` undoes `encrypt` wherever `encrypt` does not throw |
| DeepseekAuth.EncryptInjective | deepseekooooo/auth.js:70-73 | two texts with the same encryption are the same text |
| DeepseekAuth.LoadPassword | deepseekooooo/auth.js:17-22 | the default is stored only when nothing, or only `''`, is stored; any other stored value is kept |
| DeepseekAuth.DefaultEncrypted | deepseekooooo/auth.js:20 | the default password can be encrypted and decrypts back to itself |
| DeepseekAuth.LoadPasswordIdempotent | deepseekooooo/auth.js:17-22 | loading twice stores no more than loading once |
| DeepseekAuth.VerifyPassword | deepseekooooo/auth.js:83-95 | the check throws exactly on non-Latin-1 input, and accepts exactly when the encryption of the input equals the stored value |
| DeepseekAuth.OnlyDefaultAfterLoad | deepseekooooo/auth.js:17-95 | after the first load, the default password is accepted and every other encodable password is refused |
| DeepseekAuth.AtMostOnePassword | deepseekooooo/auth.js:83-95 | a stored value is accepted for at most one password |
| DeepseekAuth.SecurityAnswerUnencodable | deepseekooooo/auth.js:117 | the encryption of the stored Chinese security answer throws |
| DeepseekAuth.VerifySecurityAnswer | deepseekooooo/auth.js:113-132 | as written, every call throws and the stored password stays as it was |
| DeepseekAuth.VerifySecurityAnswerAsIntended | deepseekooooo/auth.js:113-132 | as intended, the reset is accepted exactly when the trimmed answer is the stored answer, and a refused answer changes nothing |
| DeepseekAuth.ResetRestoresDefault | deepseekooooo/auth.js:119-120 | after the intended reset, the default password is accepted |
| DeepseekBlocks.RandomColor | deepseekooooo/blocks.js:54-60 | the colour is the palette entry for the current number of blocks |
| DeepseekBlocks.RandomColorCycles | deepseekooooo/blocks.js:54-60 | the colours repeat every eight blocks |
| DeepseekBlocks.RandomColorChanges | deepseekooooo/blocks.js:54-60 | two blocks added one after the other get different colours |
| DeepseekBlocks.Loaded | deepseekooooo/blocks.js:15-52 | `loadBlocks` builds one block per element, with its id or `block-<now>`, its title, and its colour or the palette colour |
| DeepseekBlocks.UncolouredShareColour | deepseekooooo/blocks.js:46-60 | every element without an indicator gets the same colour in one load |
| DeepseekBlocks.MissingIdsCollide | deepseekooooo/blocks.js:15-30 | elements without ids get the same id in one load, given one clock reading for the whole load |
| DeepseekBlocks.AfterElement | deepseekooooo/blocks.js:179-192 | the `reduce` keeps the item below the pointer whose offset is closest to 0, the first on a tie, and none exactly when no item lies below |
| DeepseekBlocks.AfterElementIsFirstBelow | deepseekooooo/blocks.js:179-192 | in a list laid out top to bottom, the item found is the first one whose midpoint lies below the pointer |
| DeepseekBlocks.ResizedHeight | deepseekooooo/blocks.js:305 | the new height is at least 200 and at least the dragged height, and it is one of the two |
| DeepseekBlocks.DeleteUndoesAdd | deepseekooooo/blocks.js:225-340 | deleting a block just added, whose id was new, gives back the blocks from before |
| DeepseekBlocks.BlocksManager.constructor | deepseekooooo/blocks.js:3-13 | the constructor loads the blocks from the page, with no resize running, and every element then carries its block's id as `data-block-id`; the stored entries are those given |
| DeepseekBlocks.BlocksManager.LoadBlocks | deepseekooooo/blocks.js:15-30 | the blocks become `Loaded` of the page, and every element then carries its block's id |
| DeepseekBlocks.BlocksManager.AddNewBlock | deepseekooooo/blocks.js:225-271 | without the container nothing changes; otherwise a block `block-<now>` with the next palette colour goes at the end of the page and of the list |
| DeepseekBlocks.Arranged | deepseekooooo/blocks.js:203-211 | the corrected arrangement holds only elements of the page, at most one per listed id |
| DeepseekBlocks.ArrangedFollowsPanel | deepseekooooo/blocks.js:203-211 | when the panel lists distinct ids that all name a block, the blocks come out in exactly the panel's order |
| DeepseekBlocks.ArrangedKeepsAll | deepseekooooo/blocks.js:203-211 | when, besides, the page's ids are distinct and the panel lists every block, no block is lost |
| DeepseekBlocks.BlocksManager.SaveBlockOrder | deepseekooooo/blocks.js:220-223 | the panel's ids, in panel order, are stored as `block_order` |
| DeepseekBlocks.BlocksManager.UpdateMainContentOrder | deepseekooooo/blocks.js:194-218 | as written, after a panel drop the content blocks leave the page and the block list becomes empty, while the panel order is still stored; without the containers nothing changes |
| DeepseekBlocks.BlocksManager.UpdateMainContentOrderAsIntended | deepseekooooo/blocks.js:194-218 | as intended, the page becomes `Arranged` of the old page by the panel, the blocks are read back from it, and the panel order is stored |
| DeepseekBlocks.BlocksManager.DeleteBlock | deepseekooooo/blocks.js:329-347 | without confirmation nothing changes; otherwise every block with the id leaves the list, the element leaves the page, and the id is logged |
| DeepseekBlocks.BlocksManager.SaveDeletedBlock | deepseekooooo/blocks.js:349-356 | the id is logged unless it already is |
| DeepseekBlocks.BlocksManager.SaveBlockHeight | deepseekooooo/blocks.js:323-327 | only that id's stored height changes |
| DeepseekBlocks.BlocksManager.StartResizing | deepseekooooo/blocks.js:294-299 | the resize records the element, its height and the pointer |
| DeepseekBlocks.BlocksManager.ResizeMouseMove | deepseekooooo/blocks.js:301-309 | only the resized element's height changes, to `max(200, startHeight + deltaY)` |
| DeepseekBlocks.BlocksManager.ResizeMouseUp | deepseekooooo/blocks.js:311-317 | the resize ends and the rendered height is stored under the element's id |
| DeepseekBlocks.LoggedDeleted | deepseekooooo/blocks.js:349-356 | after logging, the id is listed; an unreadable entry is left alone |
| DeepseekBlocks.LoggedDeletedDistinct | deepseekooooo/blocks.js:351-353 | logging keeps the list free of repetitions, and logging an id twice is the same as logging it once |
| DeepseekStickers.AttachTarget | deepseekooooo/stickers.js:348-377 | a target exists exactly when some overlap exceeds 1000, and then it is the first of the blocks with the largest overlap |
| DeepseekStickers.Attached | deepseekooooo/stickers.js:364-376 | the parent becomes the target; a new target gives z-index 10, no target gives z-index 100, and finding the current parent again changes nothing |
| DeepseekStickers.AttachedIdempotent | deepseekooooo/stickers.js:348-377 | running the check again with the same rectangles changes nothing more |
| DeepseekStickers.SmallOverlapDetaches | deepseekooooo/stickers.js:362-376 | a sticker whose overlaps all stay at 1000 or below is detached, even when it still overlaps its parent a little |
| DeepseekStickers.ResizedSize | deepseekooooo/stickers.js:326-327 | the size while resizing is at least 100 by 80 and at least the start size plus the pointer's travel, and each side is one of the two |
| DeepseekStickers.Moved | deepseekooooo/stickers.js:265-268 | the position is the pointer minus the stored offset, and `NaN` when the offset was never set |
| DeepseekStickers.FirstKnown | deepseekooooo/stickers.js:535-550 | the type of the first entry of a known type, and none exactly when every entry has an unknown type |
| DeepseekStickers.RestoredAll | deepseekooooo/stickers.js:535-579 | the intended loader restores at most one sticker per saved entry |
| DeepseekStickers.RestoredAllSnoc | deepseekooooo/stickers.js:535-579 | restoring one more entry at the end is restoring the prefix and then that entry |
| DeepseekStickers.SaveThenRestore | deepseekooooo/stickers.js:514-577 | a saved sticker whose position and size are neither 0 nor `NaN` and whose parent is on the page comes back with everything but its id |
| DeepseekStickers.ZeroPositionLost | deepseekooooo/stickers.js:554-555 | a sticker saved at 0 on an axis comes back at the default position on that axis |
| DeepseekStickers.StickersManager.constructor | deepseekooooo/stickers.js:3-8 | the manager starts with no stickers and nothing in progress |
| DeepseekStickers.StickersManager.CreateSticker | deepseekooooo/stickers.js:149-240 | as written, the 200×160 record at the centre of the window, with no parent, is added, and then the call to the undefined `findParentBlock` throws |
| DeepseekStickers.StickersManager.CreateStickerAsIntended | deepseekooooo/stickers.js:149-236 | without that call, exactly the new record is added, with no parent |
| DeepseekStickers.StickersManager.CheckBlockAttachment | deepseekooooo/stickers.js:348-377 | only that sticker changes, to `Attached` with the `AttachTarget` target |
| DeepseekStickers.StickersManager.DragMouseDown | deepseekooooo/stickers.js:250-261 | outside edit mode or on the delete button nothing changes; otherwise the shared flag is set and the offset is recorded |
| DeepseekStickers.StickersManager.DragMouseMove | deepseekooooo/stickers.js:263-275 | as written, while the shared flag is set every sticker moves by its own offset and is checked for attachment |
| DeepseekStickers.StickersManager.SaveStickerPosition | deepseekooooo/stickers.js:490-494 | only that id's stored position changes |
| DeepseekStickers.StickersManager.SaveStickerSize | deepseekooooo/stickers.js:496-500 | only that id's stored size changes |
| DeepseekStickers.StickersManager.DragMouseUp | deepseekooooo/stickers.js:277-286 | as written, the flag is cleared and only the first sticker ever created has its position saved |
| DeepseekStickers.StickersManager.DragMouseDownAsIntended | deepseekooooo/stickers.js:250-261 | as intended, only the pressed sticker is marked as dragged |
| DeepseekStickers.StickersManager.DragMouseMoveAsIntended | deepseekooooo/stickers.js:263-275 | as intended, only the dragged sticker moves and is checked for attachment |
| DeepseekStickers.StickersManager.DragMouseUpAsIntended | deepseekooooo/stickers.js:277-286 | as intended, the dragged sticker's own position is saved |
| DeepseekStickers.StickersManager.ResizeMouseDown | deepseekooooo/stickers.js:297-316 | a resize starts exactly in edit mode with the press strictly within 20 px of the bottom-right corner |
| DeepseekStickers.StickersManager.ResizeMouseMove | deepseekooooo/stickers.js:318-333 | only the resized sticker changes, to `ResizedSize` |
| DeepseekStickers.StickersManager.ResizeMouseUp | deepseekooooo/stickers.js:335-341 | the resize ends and the sticker's size is saved |
| DeepseekStickers.StickersManager.SaveStickers | deepseekooooo/stickers.js:514-527 | every live sticker is saved, in order, with its parent's id or null |
| DeepseekStickers.StickersManager.DeleteSticker | deepseekooooo/stickers.js:482-488 | once confirmed, exactly the stickers with that id leave the list, the rest stay in order, and the list is saved |
| DeepseekStickers.StickersManager.LoadStickers | deepseekooooo/stickers.js:529-584 | as written, unknown types are skipped and the first known entry creates a default sticker whose creation throws, which ends the load |
| DeepseekStickers.RestoreEntries | deepseekooooo/stickers.js:535-579 | the intended `forEach` over the saved entries restores exactly the entries of a known type, in order, each shown at the next record index with no drag offset |
| DeepseekStickers.StickersManager.LoadStickersAsIntended | deepseekooooo/stickers.js:529-584 | as intended, every entry of a known type becomes a sticker with its saved position, size, content and parent restored; each new sticker is shown on the page, in order after the existing ones, with no drag offset |
| DeepseekStickers.FirstKnownAt | deepseekooooo/stickers.js:535-550 | the first entry of a known type is the one `FirstKnown` names |
| DeepseekStickers.TwoSavedOneLoaded | deepseekooooo/stickers.js:529-584 | as written, a list of two text stickers loads one default sticker, while the intended loader restores both |
| QwenBlocks.DefaultsDense | qwenooooo/blocks.js:3-9 | the defaults are five blocks 300 pixels high, with distinct ids and orders 0 to 4 |
| QwenBlocks.Initial | qwenooooo/blocks.js:3-9 | the stored array is used when present, the defaults when nothing is stored, and an unparseable entry stops the script |
| QwenBlocks.DenseSorted | qwenooooo/blocks.js:16 | an array whose orders are its indexes is already sorted |
| QwenBlocks.Renumbered | qwenooooo/blocks.js:167 | renumbering gives each block its index as order and changes nothing else |
| QwenBlocks.AddKeepsDense | qwenooooo/blocks.js:230-239 | appending a block whose order is the old length keeps the orders equal to the indexes |
| QwenBlocks.ResizedHeight | qwenooooo/blocks.js:188-190 | the height is never below 200 and otherwise is the start height plus the delta |
| QwenBlocks.ResizeClass | qwenooooo/blocks.js:194-199 | the handle is marked down exactly when delta > 5, up exactly when delta < -5, and neither in between |
| QwenBlocks.ResizeBackToStart | qwenooooo/blocks.js:185-204 | dragging back to the start leaves a height of at least 200 as it was and clears the mark |
| QwenBlocks.BlockList.constructor | qwenooooo/blocks.js:3-9 | the list starts with what the first line read, and no resize running |
| QwenBlocks.BlockList.RenderBlocks | qwenooooo/blocks.js:12-39 | the array is sorted by order in place and saved |
| QwenBlocks.BlockList.SaveBlocks | qwenooooo/blocks.js:241-243 | the whole array is stored |
| QwenBlocks.BlockList.RenumberOrders | qwenooooo/blocks.js:167 | the loop gives each block its index as order |
| QwenBlocks.BlockList.DeleteBlock | qwenooooo/blocks.js:165-169 | every block with the id goes, the rest are renumbered 0..n-1 in their order, and the result is saved; the deleted block's stickers stay |
| QwenBlocks.BlockList.AddNewBlock | qwenooooo/blocks.js:230-239 | one block `block-<now>`, 300 high, with order equal to the old length is added and the list is rendered; on a dense list it simply goes last |
| QwenBlocks.BlockList.UpdateBlockOrderFromSidebar | qwenooooo/blocks.js:129-142 | the block of the i-th panel item gets order i, unknown ids are skipped, and the list is rendered |
| QwenBlocks.BlockList.ResizeMouseDown | qwenooooo/blocks.js:176-183 | a resize starts only in edit mode |
| QwenBlocks.BlockList.ResizeMouseMove | qwenooooo/blocks.js:185-204 | only the resized block's height changes, to `ResizedHeight`, and nothing is saved yet |
| QwenBlocks.BlockList.ResizeMouseUp | qwenooooo/blocks.js:206-213 | the end of a resize saves the array; with no resize nothing is saved |
| QwenBlocks.PanelOrders | qwenooooo/blocks.js:129-142 | with unique ids, the block at panel position i gets order i and any other block is unchanged |
| QwenBlocks.DeleteUndoesAdd | qwenooooo/blocks.js:165-239 | deleting the block just added gives back the dense array from before |
| QwenEditorUi.ReadHero | qwenooooo/editor-ui.js:87 | the read fails exactly on an unparseable entry, and a missing entry gives the empty dictionary |
| QwenEditorUi.ColorKeyDiffers | qwenooooo/editor-ui.js:93-97 | a colour key is never the key whose colour it holds, so saving a text keeps its colour |
| QwenEditorUi.AssignTitles | qwenooooo/editor-ui.js:73-80 | giving titles keeps every block's id, order and height |
| QwenEditorUi.TitlesAt | qwenooooo/editor-ui.js:73-80 | with unique ids, each block takes the title of the header with its id, and a block with no header keeps its title |
| QwenEditorUi.SaveBlockTitles | qwenooooo/editor-ui.js:72-83 | the titled array is saved, and then it is sorted by order in place |
| QwenEditorUi.HeroPage.constructor | qwenooooo/editor-ui.js:100-116 | the page starts with the given elements and storage |
| QwenEditorUi.HeroPage.SaveHeroText | qwenooooo/editor-ui.js:86-91 | the key gets the value and every other key, its colour key included, is unchanged; an unparseable entry throws and changes nothing |
| QwenEditorUi.HeroPage.SaveHeroTextColor | qwenooooo/editor-ui.js:93-98 | only `<key>_color` changes; an unparseable entry throws and changes nothing |
| QwenEditorUi.HeroPage.EditHeroText | qwenooooo/editor-ui.js:22-48 | a prompt answer replaces the text and is saved, and a valid palette choice sets and saves the colour |
| QwenEditorUi.HeroPage.SetHeroColor | qwenooooo/editor-ui.js:41-46 | a chosen colour is shown on the element and saved under `<key>_color`; no choice changes nothing |
| QwenEditorUi.HeroPage.LoadHeroText | qwenooooo/editor-ui.js:100-116 | the load throws exactly on an unparseable entry, and otherwise applies the dictionary as `ApplyHero` says |
| QwenEditorUi.SaveThenLoad | qwenooooo/editor-ui.js:86-116 | saving a text and loading the dictionary shows that text on the first element with the key, with the colour already stored |
| QwenStickers.Initial | qwenooooo/stickers.js:3 | the stored object is used when present, `{}` when nothing is stored, and an unparseable entry stops the script |
| QwenStickers.NewStickerDefaults | qwenooooo/stickers.js:339-352 | with no data, the record is at (100, 100), 200 by 160, in the block it was added to |
| QwenStickers.NewStickerOverrides | qwenooooo/stickers.js:342-351 | every field the data supplies overrides the default |
| QwenStickers.Kind | qwenooooo/stickers.js:208 | the type is image when there is an `img`, otherwise video when there is a `video`, otherwise text |
| QwenStickers.Dropped | qwenooooo/stickers.js:206-216 | the record saved on drop has the sticker's id, the winning block as parent, its inferred type and its current box |
| QwenStickers.ReparentedOnce | qwenooooo/stickers.js:200-219 | after the drop, the sticker's id occurs exactly once, as the last record of the target block |
| QwenStickers.ReparentedKeepsOthers | qwenooooo/stickers.js:200-219 | no other sticker is lost or moved |
| QwenStickers.StickerBoard.constructor | qwenooooo/stickers.js:3 | the board starts with what the first line read, and no drag |
| QwenStickers.StickerBoard.SaveStickers | qwenooooo/stickers.js:226-228 | the whole object is stored |
| QwenStickers.StickerBoard.AddStickerToBlock | qwenooooo/stickers.js:339-358 | the block's list is created when missing and gets one new `sticker-<now>` record, every other list is unchanged, and the object is saved |
| QwenStickers.StickerBoard.MouseDown | qwenooooo/stickers.js:109-117 | outside edit mode nothing changes; otherwise the pointer's offset in the sticker is recorded |
| QwenStickers.StickerBoard.MouseMove | qwenooooo/stickers.js:119-159 | the sticker follows the pointer minus the offset, and the block it overlaps most is outlined; nothing is stored |
| QwenStickers.StickerBoard.MouseUp | qwenooooo/stickers.js:161-222 | the winner is the first block with the largest strict overlap; with none nothing changes; otherwise the record is removed everywhere, appended to the winner's list, and saved |
| QwenStickers.StickerBoard.RemoveEverywhere | qwenooooo/stickers.js:200-202 | the sticker is filtered out of every block's list, and the keys keep their order |
| QwenStickers.BestBlock | qwenooooo/stickers.js:167-194 | the loop returns the first block with the largest strict overlap, as `FirstMax` |
| QwenStickers.TargetBlock | qwenooooo/stickers.js:391-407 | the target is the first block spanning the middle of the window, otherwise the first block, and none exactly when there are no blocks |
| QwenStickers.HandleAddSticker | qwenooooo/stickers.js:391-414 | with no blocks nothing changes; otherwise a default sticker of the type goes into the chosen block |
| Blocks22222.DefaultsDense | 22222/blocks.js:3-9 | the defaults are five blocks with distinct ids and orders 0 to 4 |
| Blocks22222.Initial | 22222/blocks.js:3-9 | the stored array is used when present, the defaults when nothing is stored, and an unparseable entry stops the script |
| Blocks22222.AddKeepsDense | 22222/blocks.js:49-58 | appending a block whose order is the old length keeps the orders equal to the indexes |
| Blocks22222.BlockList.constructor | 22222/blocks.js:3-9 | the list starts with what the first line read |
| Blocks22222.BlockList.SaveBlocks | 22222/blocks.js:60-62 | the whole array is stored |
| Blocks22222.BlockList.UpdateNavItems | 22222/blocks.js:37-47 | one navigation link per block, in array order |
| Blocks22222.BlockList.RenderBlocks | 22222/blocks.js:12-35 | the blocks appear in array order, whatever their `order` fields say; the navigation is rebuilt and the unchanged array saved |
| Blocks22222.BlockList.AddNewBlock | 22222/blocks.js:49-58 | one block `block-<now>` with order equal to the old length goes last, on the page and in the array, and is saved |
| Stickers22222.Initial | 22222/stickers.js:3 | the stored object is used when present, `{}` when nothing is stored, and an unparseable entry stops the script |
| Stickers22222.NewStickerDefaults | 22222/stickers.js:113-131 | with no data, the record is at (100, 100) and 200 by 160 |
| Stickers22222.StickerBoard.constructor | 22222/stickers.js:3 | the board starts with what the first line read |
| Stickers22222.StickerBoard.SaveStickers | 22222/stickers.js:102-105 | the whole object is stored |
| Stickers22222.StickerBoard.LoadStickForBlock | 22222/stickers.js:6-18 | the block's records are shown in list order, and nothing when the block has no content element |
| Stickers22222.StickerBoard.AddStickerToBlock | 22222/stickers.js:113-131 | the block's list is created when missing and gets one new record, every other list is unchanged, the object is saved and the block's stickers are shown again |
| Stickers22222.StickerBoard.SaveStickerPosition | 22222/stickers.js:84-100 | the answer is whether the block lists the id; only that block's first matching record takes the measured box, and the object is saved only then |
| Stickers22222.MoveTouchesOne | 22222/stickers.js:90-97 | after a move only the moved record differs, and only in its box: every record keeps its id, type and content |
| GrokBlocks.BlockIdAtInjective | grokooooo/blocks.js:20 | two numbers give the same `block-<n>` id only when they are equal |
| GrokBlocks.Data | grokooooo/blocks.js:113-119 | `getBlocksData` gives one entry per block |
| GrokBlocks.IdReuse | grokooooo/blocks.js:20-79 | ids taken from the count repeat: with `block-1` and `block-2`, deleting `block-1` and adding a block gives a second `block-2`, and deleting `block-2` then removes both |
| GrokBlocks.NumberedDistinct | grokooooo/blocks.js:20 | ids numbered from a count that never goes down are distinct |
| GrokBlocks.DeleteRemovesOne | grokooooo/blocks.js:79 | with distinct ids, the delete filter removes exactly the block with that id |
| GrokBlocks.Grown | grokooooo/blocks.js:62-67 | a height is written exactly when the pointer moved down, and then it is `max(startHeight + delta, 200)`, taller than at the start |
| GrokBlocks.PanelIndex | grokooooo/blocks.js:94 | `indexOf` gives the title's position in the panel, and -1 exactly when it is absent |
| GrokBlocks.StrictRanks | grokooooo/blocks.js:92-97 | in the sorted array, with distinct titles all in the panel, the panel positions rise strictly |
| GrokBlocks.ReorderFollowsPanel | grokooooo/blocks.js:92-97 | when the panel lists each distinct title once, `reorderBlocks` puts the blocks in exactly the panel's order |
| GrokBlocks.InPanelOrder | grokooooo/blocks.js:92-97 | a sorted array of as many distinct titles as the panel has, all in the panel, is in panel order |
| GrokBlocks.Restored | grokooooo/blocks.js:121-126 | `setBlocksData` adds one block per entry |
| GrokBlocks.Fresh | grokooooo/blocks.js:121-126 | with no clashing titles, one new block per entry |
| GrokBlocks.RestoreRoundTrip | grokooooo/blocks.js:113-126 | loading saved data whose titles are distinct and new brings each entry back as a new block with its title and height |
| GrokBlocks.RestoredLast | grokooooo/blocks.js:121-126 | the last entry's `addBlock` saves the state before that entry's height is written |
| GrokBlocks.RestoredStep | grokooooo/blocks.js:121-126 | each entry is one more restore step |
| GrokBlocks.FreshTitles | grokooooo/blocks.js:121-126 | an entry's title is on no block made before it |
| GrokBlocks.RestoreNew | grokooooo/blocks.js:122-124 | an entry whose title is new comes back as the last block, with its height |
| GrokBlocks.SharedTitleHeight | grokooooo/blocks.js:123-124 | two saved entries with one title: the second height goes to the first block, and the second block gets no height |
| GrokBlocks.BlockList.constructor | grokooooo/blocks.js:6 | the page starts with no blocks |
| GrokBlocks.BlockList.SaveToLocalStorage | grokooooo/blocks.js:113-119 | the blocks are stored as `getBlocksData` gives them |
| GrokBlocks.BlockList.AddBlockAsWritten | grokooooo/blocks.js:19-86 | as written, the block is pushed with id `block-` and the count plus one, then the title colouring throws and nothing is saved |
| GrokBlocks.BlockList.AddBlock | grokooooo/blocks.js:19-89 | with the title colouring taking no effect, the id is `block-` with the count plus one, the block goes last with no height, and everything is saved |
| GrokBlocks.BlockList.AddBlockAsIntended | grokooooo/blocks.js:19-88 | with ids from a count that never goes down, ids stay distinct across deletes |
| GrokBlocks.BlockList.InitBlocksAsWritten | grokooooo/blocks.js:9-16 | as written, the first `addBlock` throws: the page keeps only 项目1, 项目2 is never added and nothing is saved |
| GrokBlocks.BlockList.InitBlocks | grokooooo/blocks.js:9-13 | once `addBlock` completes, the page gets the two sample blocks 项目1 and 项目2, saved |
| GrokBlocks.BlockList.ResizeMouseDown | grokooooo/blocks.js:56-61 | a resize starts, recording the block, the pointer and the height |
| GrokBlocks.BlockList.ResizeMouseMove | grokooooo/blocks.js:62-67 | only the resized block changes, to the grown height, and only when the pointer is below where it started; nothing is saved |
| GrokBlocks.BlockList.ResizeMouseUp | grokooooo/blocks.js:68-71 | the resize ends |
| GrokBlocks.BlockList.DeleteBlock | grokooooo/blocks.js:74-82 | without confirmation nothing changes; otherwise every block with the id goes and the rest are saved |
| GrokBlocks.BlockList.ReorderBlocks | grokooooo/blocks.js:92-97 | the blocks are stably sorted by their title's position in the panel, and saved |
| GrokBlocks.BlockList.SetFirstHeight | grokooooo/blocks.js:123-124 | the first block with the title takes the height, and no other block changes |
| GrokBlocks.BlockList.RestoreEntry | grokooooo/blocks.js:122-125 | one entry adds a block, saves, then writes its height |
| GrokBlocks.BlockList.SetBlocksData | grokooooo/blocks.js:121-126 | the blocks become `Restored`; the last save is the state before the last height was written |
| GrokBlocks.BlockList.RestoreEntries | grokooooo/blocks.js:121-126 | the loop restores every entry in order |
| GrokScript.ToInt32 | grokooooo/script.js:162 | the 32-bit two's-complement value the shift operators work on: within the signed range and congruent to the input modulo 2^32 |
| GrokScript.ShiftLeft | grokooooo/script.js:162 | `x << k` is a signed 32-bit value, and is `x * 2^k` whenever that fits |
| GrokScript.NumberHex | grokooooo/script.js:162 | `toString(16)` of a whole number is its base-16 digits, with `-` before a negative one |
| GrokScript.RgbToHex | grokooooo/script.js:159-163 | an empty colour gives `#f8bbd0`; a colour with no digits throws; fewer than three numbers give `#aN`; every result starts with `#` |
| GrokScript.HexAppendPair | grokooooo/script.js:162 | the digits of `256 x + y` are those of `x` followed by the two-digit pair of `y` |
| GrokScript.PackedHex | grokooooo/script.js:162 | `(1 << 24) + (r << 16) + (g << 8) + b` in base 16 is `1` then the pairs of r, g and b |
| GrokScript.PackedRuns | grokooooo/script.js:161-162 | with three numbers small enough not to wrap, the result is the packed number in base 16 without its leading digit |
| GrokScript.RgbToHexOfRgb | grokooooo/script.js:159-163 | for `rgb(r, g, b)` with components up to 255 the result is `#rrggbb`, leading zeros kept |
| GrokScript.RgbToHexDigits | grokooooo/script.js:162 | the result has seven characters, six lower-case hexadecimal digits, and its pairs read back as r, g and b |
| GrokScript.RgbToHexInjective | grokooooo/script.js:162 | distinct colours with components up to 255 give distinct results |
| GrokScript.ExtraRunsIgnored | grokooooo/script.js:161 | only the first three numbers count, so `rgba(r, g, b, a)` gives what `rgb(r, g, b)` gives |
| GrokScript.WideComponentCarries | grokooooo/script.js:161-162 | components above 255 are not clamped: a green of 256 carries into the red pair |
| GrokStickers.NewStickerContent | grokooooo/stickers.js:16-31 | a text sticker ignores its content and shows 编辑文本; an image or video takes the content as its source; a new sticker has no parent |
| GrokStickers.TypeName | grokooooo/stickers.js:222 | the saved type is text for a text sticker, image when there is an image, and video otherwise |
| GrokStickers.InnerHtml | grokooooo/stickers.js:223 | the saved `innerHTML` is longer than the child alone, because it holds the resize handle too |
| GrokStickers.StickersData | grokooooo/stickers.js:220-229 | one entry per sticker, in array order |
| GrokStickers.AttachedChoice | grokooooo/stickers.js:138-157 | a sticker gets a parent exactly when some block overlaps more than half of its offset area, and then it is the first block with the largest overlap |
| GrokStickers.MajorityBlockWins | grokooooo/stickers.js:138-157 | a block holding more than half of the sticker and strictly more than any other block is its parent, wherever it stands in the page order |
| GrokStickers.ReloadLosesContent | grokooooo/stickers.js:220-239 | a reloaded sticker keeps its kind, position and size, but an image or video gets its old `innerHTML` as its source |
| GrokStickers.StickersDataAsIntended | grokooooo/stickers.js:220-229 | the corrected save: one entry per sticker, holding its content |
| GrokStickers.ReloadRoundTrip | grokooooo/stickers.js:220-239 | with the content saved as intended, reloading gives the same sticker back, except for a parent worked out afresh |
| GrokStickers.NewStickerConsistent | grokooooo/stickers.js:10-31 | a new sticker's kind and content agree |
| GrokStickers.LoadedAll | grokooooo/stickers.js:231-239 | one sticker per saved entry |
| GrokStickers.LoadedAllStep | grokooooo/stickers.js:232-238 | each entry adds one sticker at the end |
| GrokStickers.BoardRoundTrip | grokooooo/stickers.js:220-239 | a board saved as intended and loaded onto an empty page gives every sticker back in order, up to the parents |
| GrokStickers.StickerBoard.constructor | grokooooo/stickers.js:2 | the page starts with no stickers, no drag and no resize |
| GrokStickers.StickerBoard.SaveToLocalStorage | grokooooo/script.js:107-117 | the stickers part of the saved data is `getStickersData` of the stickers |
| GrokStickers.StickerBoard.SaveToLocalStorageAsIntended | grokooooo/script.js:107-117 | the corrected save keeps each sticker's content |
| GrokStickers.StickerBoard.ParentFor | grokooooo/stickers.js:138-149 | the running maximum from 0 and the half-area test choose exactly `Attached`; nothing changes |
| GrokStickers.StickerBoard.AttachToBlock | grokooooo/stickers.js:138-157 | only that sticker's parent changes, to `Attached` |
| GrokStickers.StickerBoard.Push | grokooooo/stickers.js:33-38 | the sticker is attached, pushed last, and everything is saved |
| GrokStickers.StickerBoard.AddSticker | grokooooo/stickers.js:10-39 | the new sticker goes last, attached, and everything is saved |
| GrokStickers.StickerBoard.AddStickerAsIntended | grokooooo/stickers.js:10-39 | as `AddSticker`, with a text sticker showing its content, and saved with content |
| GrokStickers.StickerBoard.EditText | grokooooo/stickers.js:18 | typing changes the text of a text sticker and nothing else; other stickers are unchanged; nothing is saved |
| GrokStickers.StickerBoard.SetLastLengths | grokooooo/stickers.js:234-238 | the saved position and size go on the last sticker only |
| GrokStickers.StickerBoard.RestoreEntry | grokooooo/stickers.js:233-238 | one entry adds a sticker, saves, then writes the saved position and size on it |
| GrokStickers.StickerBoard.RestoreAll | grokooooo/stickers.js:231-239 | every entry is added in order; the last save is taken before the last entry's lengths are written |
| GrokStickers.StickerBoard.SetStickersData | grokooooo/stickers.js:231-239 | the stickers become the old ones plus `LoadedAll` of the data |
| GrokStickers.StickerBoard.SetStickersDataAsIntended | grokooooo/stickers.js:231-239 | as `SetStickersData`, using the corrected `addSticker` |
| GrokStickers.StickerBoard.DragMouseDown | grokooooo/stickers.js:75-82 | in edit mode the drag of that sticker starts at the pointer; otherwise nothing changes |
| GrokStickers.StickerBoard.ElementDrag | grokooooo/stickers.js:84-93 | the sticker moves by the pointer's travel since the last step and is attached again; with no drag nothing changes |
| GrokStickers.StickerBoard.CloseDragElement | grokooooo/stickers.js:95-98 | the drag ends |
| GrokStickers.StickerBoard.InitResize | grokooooo/stickers.js:115-122 | in edit mode the resize starts from the pointer and the computed size; otherwise nothing changes |
| GrokStickers.StickerBoard.Resize | grokooooo/stickers.js:124-129 | the size becomes the start size plus the pointer's travel, with no minimum; nothing is saved |
| GrokStickers.StickerBoard.StopResize | grokooooo/stickers.js:131-134 | the resize ends |
| ChatgptStickers.IndexFrom | chatgptxxxxx/stickers.js:187 | the first position at or after the start where the selection occurs, or none when there is none |
| ChatgptStickers.IndexOf | chatgptxxxxx/stickers.js:187 | the position `replace` matches at: the first occurrence, none exactly when there is no occurrence, and 0 for an empty selection |
| ChatgptStickers.SubstituteLiteral | chatgptxxxxx/stickers.js:187 | a replacement with no `$` is inserted as it is |
| ChatgptStickers.Link | chatgptxxxxx/stickers.js:187 | the link is `[`, the selection, `](`, the address and `)` |
| ChatgptStickers.ApplyLink | chatgptxxxxx/stickers.js:183-188 | a text without the selection is unchanged; otherwise only its first occurrence is replaced, by the link after `$` patterns are expanded |
| ChatgptStickers.ApplyLinkAsIntended | chatgptxxxxx/stickers.js:183-188 | the corrected replacement: the first occurrence becomes the link, taken literally, and the rest of the text is kept |
| ChatgptStickers.UnlinkAsIntended | chatgptxxxxx/stickers.js:183-188 | putting the selection back in place of the link gives the original text |
| ChatgptStickers.ApplyLinkAgrees | chatgptxxxxx/stickers.js:187 | with no `$` in the selection or the address, the replacement is the intended one |
| ChatgptStickers.ApplyLinkDollarPattern | chatgptxxxxx/stickers.js:187 | linking `x` in the text `x` to `a$&b` writes `[x](axb)`, not `[x](a$&b)` |
| ChatgptStickers.NewSticker | chatgptxxxxx/stickers.js:24-38 | a new sticker is at (200, 200) with no parent, holding an empty textarea for text, a file input for image or video, and nothing for any other type |
| ChatgptStickers.LoadedFile | chatgptxxxxx/stickers.js:93-109 | a chosen file replaces the input with an image or video of its object URL; without a file, or without an input, nothing changes |
| ChatgptStickers.LoadedFileOnce | chatgptxxxxx/stickers.js:94-104 | once a file is shown the input is gone, so a later file changes nothing |
| ChatgptStickers.Moved | chatgptxxxxx/stickers.js:67-72 | the sticker's new position is its page position at mousedown plus the pointer's travel; nothing else changes |
| ChatgptStickers.MovedLastWins | chatgptxxxxx/stickers.js:67-72 | only the last pointer position counts: moves do not accumulate |
| ChatgptStickers.Reparented | chatgptxxxxx/stickers.js:114-135 | with no overlapping block the parent stays what it was; otherwise it is the first block with the largest overlap, whatever share of the sticker that is |
| ChatgptStickers.ThresholdOnlyNarrows | chatgptxxxxx/stickers.js:114-135 | every block the half-area rule of the grok variant would choose is the block chosen here too |
| ChatgptStickers.LinkToolbarShown | chatgptxxxxx/stickers.js:149-157 | the toolbar shows exactly on a text sticker whose selection has a non-blank character |
| ChatgptStickers.BestBlock | chatgptxxxxx/stickers.js:115-132 | the scan from `bestArea = 0` finds the first block of largest overlap; nothing changes |
| ChatgptStickers.StickerLayer.constructor | chatgptxxxxx/stickers.js:15 | the layer starts with no stickers and no drag |
| ChatgptStickers.StickerLayer.CreateSticker | chatgptxxxxx/stickers.js:24-49 | the new sticker goes last and its index is returned |
| ChatgptStickers.StickerLayer.LoadFile | chatgptxxxxx/stickers.js:97-108 | only that sticker changes, to `LoadedFile` |
| ChatgptStickers.StickerLayer.EditText | chatgptxxxxx/stickers.js:31 | typing sets the text of that sticker's textarea and changes nothing else |
| ChatgptStickers.StickerLayer.DragMouseDown | chatgptxxxxx/stickers.js:58-66 | on the textarea or file input nothing happens; elsewhere the pointer and the page position are recorded |
| ChatgptStickers.StickerLayer.DragMouseMove | chatgptxxxxx/stickers.js:67-72 | with a drag on, only the dragged sticker moves, to `Moved`; otherwise nothing changes |
| ChatgptStickers.StickerLayer.UpdateStickerParent | chatgptxxxxx/stickers.js:114-135 | only that sticker's parent changes, to `Reparented` |
| ChatgptStickers.StickerLayer.DragMouseUp | chatgptxxxxx/stickers.js:74-78 | the drag ends and the dragged sticker is re-parented; with no drag nothing changes |
| ChatgptStickers.StickerLayer.ConfirmLink | chatgptxxxxx/stickers.js:172-176 | a blank address changes nothing; otherwise the sticker's text becomes `ApplyLink` of the trimmed address |
| ChatgptStickers.StickerLayer.ConfirmLinkAsIntended | chatgptxxxxx/stickers.js:172-176 | as `ConfirmLink`, inserting the link literally |
| ChatgptBlocks.UntitledLabelsDiffer | chatgptxxxxx/blocks.js:34 | untitled blocks at different positions get different labels |
| ChatgptBlocks.NumberOf | chatgptxxxxx/blocks.js:93 | `Number` of a `data-index` is a position or -1 |
| ChatgptBlocks.NumberOfDecimal | chatgptxxxxx/blocks.js:35-93 | the index written into `data-index` reads back as the same number |
| ChatgptBlocks.PanelFor | chatgptxxxxx/blocks.js:22-41 | one item per block, in page order, labelled and numbered from 0 |
| ChatgptBlocks.Indexes | chatgptxxxxx/blocks.js:89-93 | the numbers read off the items, in panel order |
| ChatgptBlocks.PanelNumbersInOrder | chatgptxxxxx/blocks.js:31-36 | a fresh panel reads back as 0, 1, ..., n - 1 |
| ChatgptBlocks.MoveItem | chatgptxxxxx/blocks.js:80-84 | the dragged item lands at the placeholder, and the other items keep their order; nothing is lost or copied |
| ChatgptBlocks.MoveItemAt | chatgptxxxxx/blocks.js:82 | each position of the moved list holds the item from a computed position of the old one |
| ChatgptBlocks.MoveToEnd | chatgptxxxxx/blocks.js:95 | `appendChild` puts the block last |
| ChatgptBlocks.FilterOutOne | chatgptxxxxx/blocks.js:95 | taking a block out of the page leaves the others in their order |
| ChatgptBlocks.MoveToEndPermutes | chatgptxxxxx/blocks.js:95 | appending a block of the page reorders the blocks and loses or copies none |
| ChatgptBlocks.RebuiltPermutes | chatgptxxxxx/blocks.js:88-97 | whatever the panel holds, the rebuild loses no block and copies none |
| ChatgptBlocks.RebuiltPrefix | chatgptxxxxx/blocks.js:92-96 | after the first k items, the blocks not yet appended are in front in their old order, and the appended ones follow in panel order |
| ChatgptBlocks.RebuildFollowsPanel | chatgptxxxxx/blocks.js:88-97 | when the panel names every block once, the rebuild puts the blocks in exactly the panel's order |
| ChatgptBlocks.DropMovesBlock | chatgptxxxxx/blocks.js:80-97 | dropping an item of a fresh panel into a gap moves its block to the same place in the page, and the other blocks keep their order |
| ChatgptBlocks.DropOrder | chatgptxxxxx/blocks.js:80-93 | after the move the panel reads back as a permutation of the positions |
| ChatgptBlocks.NewHeight | chatgptxxxxx/blocks.js:117-120 | the new height is the start height plus the pointer's travel, and never less than 200 |
| ChatgptBlocks.WithHeight | chatgptxxxxx/blocks.js:120 | only the resized block's height changes |
| ChatgptBlocks.DeleteRemovesOnlyChosen | chatgptxxxxx/blocks.js:141 | removing a block keeps exactly the other blocks |
| ChatgptBlocks.BlockEditor.constructor | chatgptxxxxx/blocks.js:165-173 | the page's sections become the blocks, in order, by their titles; the panel is empty |
| ChatgptBlocks.BlockEditor.RefreshPanelList | chatgptxxxxx/blocks.js:22-41 | the panel becomes `PanelFor` of the blocks, with no drag and no placeholder |
| ChatgptBlocks.BlockEditor.DragStart | chatgptxxxxx/blocks.js:54-59 | the item becomes the dragged one |
| ChatgptBlocks.BlockEditor.DragOver | chatgptxxxxx/blocks.js:67-78 | the placeholder goes before the item when the pointer is in its upper half, after it otherwise |
| ChatgptBlocks.BlockEditor.DragEnd | chatgptxxxxx/blocks.js:61-65 | the placeholder goes and the drag ends |
| ChatgptBlocks.BlockEditor.RebuildBlocksFromPanel | chatgptxxxxx/blocks.js:88-99 | the blocks become `Rebuilt` from the panel's numbers, and the panel is refreshed |
| ChatgptBlocks.BlockEditor.Drop | chatgptxxxxx/blocks.js:80-84 | without a drag nothing changes; otherwise the dragged item moves to the placeholder and the blocks are rebuilt |
| ChatgptBlocks.BlockEditor.ResizeMouseDown | chatgptxxxxx/blocks.js:112-116 | the resize of that block starts from the pointer and its height |
| ChatgptBlocks.BlockEditor.ResizeMouseMove | chatgptxxxxx/blocks.js:117-121 | during a resize only that block's height changes, to `NewHeight`; otherwise nothing changes |
| ChatgptBlocks.BlockEditor.ResizeMouseUp | chatgptxxxxx/blocks.js:123-126 | the resize ends |
| ChatgptBlocks.BlockEditor.DeleteBlock | chatgptxxxxx/blocks.js:139-143 | without confirmation nothing changes; otherwise the block goes and the panel is refreshed |
| ChatgptBlocks.BlockEditor.CreateNewBlock | chatgptxxxxx/blocks.js:149-160 | a block titled 新项目块 goes last, and the panel is refreshed to show it |

## Left out

- Rendering, CSS, animations, transitions, the injected style sheets and every purely visual effect (colours of decorations, cursor shapes and colours, toolbar placement), because they change nothing the model states.
- Event wiring and page start-up (`DOMContentLoaded` handlers, `init` functions, listener registration). The handlers are modelled as methods called in the order events arrive. In `grokooooo/script.js:96-104` the start-up handler calls `initBlocks` before `initStickers`, `initEditorUI`, `initCursor` and `loadFromLocalStorage`. As written, `initBlocks` throws inside its first `addBlock` (see "## Findings"), so the handler stops there: none of those four runs and nothing is saved. With that line corrected, `initBlocks` would save before `loadFromLocalStorage` reads, and the stored page would be overwritten at start-up. That file is not part of this model apart from `rgbToHex`.
- Scrolling, navigation highlighting and the mobile checks in the `script.js` files other than the members listed above, because they are window event wiring.
- `Sortable.js` in `grokooooo/blocks.js:48-51`, because it is an external library. Its drop reaches the model only as the panel order passed to `ReorderBlocks`.
- Floating point. Pixel values, offsets and rectangles are integers in most variants, and a midpoint test `y < top + height / 2` is written doubled as `2 * y < 2 * top + height`. The myonly stickers, the myonly cursor and the grok sticker lengths use exact reals instead. No IEEE double rounding is modelled.
- `parseInt`, `Number` and the digit runs of `rgbToHex` are read exactly. Numbers above 2^53 that a double would round are not modelled.
- Strings are sequences of characters, each read as one UTF-16 code unit. A character outside the Basic Multilingual Plane, which JavaScript counts as two units, is one element here.
- The `innerHTML` the grok variant saves is an approximation of the markup. No attribute escaping is modelled, only its length and that it is not the bare content.
- Style lengths are kept as typed values (`Unset` or a pixel number). A negative width or height from the grok sticker resize, which a browser's CSS parser rejects, is stored as given.
- One drag and one resize session at a time, and no events interleaved within a handler. The browser runs handlers to completion one after another.
- The chatgpt variant's `MutationObserver` watcher (`chatgptxxxxx/stickers.js:137-144`), because it only re-runs `updateStickerParent` on every sticker, which the model offers as a method.
- The `resize: both` resizing of chatgpt stickers (`chatgptxxxxx/stickers.js:85-88`), because the browser does it natively.
- ChatgptStickers.StickerLayer.ConfirmLink: the link toolbar's element, its placement, its click-away removal and several toolbars open at once are not modelled. The confirm button is modelled with the selection's text at the time of the click as a parameter. The click-away listener (`{ once: true }`, chatgptxxxxx/stickers.js:178-180) is registered inside the sticker's `mouseup` handler (lines 151-155). The `click` that the browser sends after that same `mouseup` therefore reaches it at once and removes the toolbar. The confirm button, and with it the `$` finding for line 187, is reached only when no `click` follows the selecting `mouseup`.
- A chatgpt page without `#editor-panel` (`chatgptxxxxx/blocks.js:23`) is not modelled. The panel always exists.
- In the chatgpt variant all blocks are assumed to be children of `#content`, as the page markup has them.
- A chatgpt `drop` before any `dragover` finds the placeholder detached, and the handler throws. The model leaves the page unchanged in that case.
- `ChatgptBlocks.NumberOf`: `Number` is modelled on the decimal strings `data-index` holds. Any other string reads as -1, an index that names no block.
- A sticker re-parented by a variant that keeps page coordinates in `style.left`/`top` jumps on screen. Only the parent and the stored numbers are modelled.
- The chatgpt sticker drag and block resize both assign `document.onmousemove`. The model keeps them as separate sessions.
- GrokBlocks.BlockList.AddBlock: models `addBlock` with line 86 corrected, the title colouring having no effect. As written (`GrokBlocks.BlockList.AddBlockAsWritten`) the page is left with only 项目1 and the add button (`grokooooo/blocks.js:14`) is never wired, so `addBlock` is never reached again. The grok block members after start-up (adding, deleting, resizing, reordering) therefore describe the page once that line is corrected.
- The grok variant's stickers and blocks halves of one `portfolioData` record are two classes, each with its own part of the saved record. The title part of the record is not part of this model.
- Stickers' parents are compared by block id. Two blocks sharing an id, which the grok id scheme can produce, are told apart only where the lemmas say so.
- Myonly79Blocks.DeleteBlock: `deleteBlock` calls `updateMenuBar()` (myonly79/blocks.js:261) before `saveData()`. No file of this model defines `updateMenuBar`; the model assumes the page defines it elsewhere and that it returns. If it were undefined, the call would throw a ReferenceError after the block and its stickers are removed in memory and from the page, and nothing would be saved.
- Myonly79Blocks.AddNewBlock: `addNewBlock` calls `updateMenuBar()` (myonly79/blocks.js:426) before `saveData()`, with the same assumption. If it were undefined, the block would be appended in memory and on the page, and nothing would be saved.
- Myonly79Blocks.HandleDragEnd: models `handleDragEnd` of myonly79/script.js:654-671, which calls `updateNavItems`. The manager's own `handleDragEnd` throws at line 373 before reaching its `updateMenuBar()` call at line 374 (see "## Findings").
- The myonly79 block title's blur listener (myonly79/blocks.js:57-61) is not modelled. It copies the title text into the record, then calls `updateMenuBar()` and `saveData()`, with the same assumption about `updateMenuBar`.
- Myonly79Blocks.ReorderBlocks: requires distinct element ids and distinct block ids, which the page guarantees by construction. With repeated ids the DOM moves are not modelled.
- MyonlyStickers.StickersManager.HandleResizeMove: requires a positive start size for the `se` handle. The aspect-ratio division by a zero size is not modelled.
- DeepseekBlocks.BlocksManager.DeleteBlock: requires that no resize is in progress. The handle's mousedown and the delete button cannot both be pressed.
- The myonly blocks loader never reads back the deleted-block and new-block logs that `saveDeletedBlock` and `saveNewBlock` append. The model keeps the logs and the loader as written.
- The myonly dictionary page model cannot hold two elements with one id. The DOM can, but the code looks elements up by id.
- The empty "no items" entry of the myonly panel is not modelled, and `getElementById` looks only among blocks.
- deepseek: the parent is compared by block id; a sticker's DOM content is left out; `getBlockTitle` is a parameter; one `Date.now()` is taken per load; `getDragAfterElement`'s negative infinity is written as `None`.
- deepseek: the side panel's own move on a drop (deepseekooooo/blocks.js:151-176) is not modelled; `updateMainContentOrder` receives the ids the panel lists after it. `block_order` is read back only by deepseekooooo/script.js:617, which is not part of this model.
- DeepseekBlocks.BlocksManager.UpdateMainContentOrder: requires that no resize is in progress, as `DeleteBlock` does. A drop in the side panel and a resize drag cannot run at once.
- deepseek: `saveStickerContent` (deepseekooooo/stickers.js:502-506), the image and video uploads and the image links are not modelled. They store a sticker's content markup under `sticker_contents` and uploaded files under `uploaded_images`, which no loader in these files reads back, and the sticker's DOM content is outside this model.
- qwen: the DOM structure; `deleteBlock` does not cascade to the block's stickers, as in the source; an image sticker's `textContent` goes into its content; the drop does not move the element in the DOM, only the records.
- 22222: `saveStickerPosition` builds an empty list in memory when the block has none, and that list is never saved. `promptImageLink` saves nothing. A missing navigation element in `updateNavItems` would throw, but the markup always has it.
- MyonlyCursor: on a mobile user agent `init` binds no events and starts no animation (`myonly/cursor.js:18-22`); the constructor models that early return, and the other cursor members describe a desktop.
- MyonlyCursor: the spring-follow of `handleMouseMove` is modelled on exact reals, with no double rounding; `updateParticlePosition`, which only writes the element's style, is not modelled.
- Clock readings (`Date.now()` for the triple-click counter, the lockout and new ids) are parameters. Real time is not modelled.

## Findings

| source | as written | input that shows it | evidently intended | confidence | as-written member | corrected member |
|---|---|---|---|---|---|---|
| myonly79/blocks.js:327-373 | the panel's drag listeners are added unbound, so `this` is the list item: `handleDragOver` throws at `this.getDragAfterElement` (line 346) before the dragged item moves, and `handleDragEnd` throws at `this.reorderBlocks()` (line 373) after the orders are assigned | blocks a (order 1) and b (order 2), drag b above a: the panel stays [a, b], the drag end assigns a and b the orders they had, throws, and nothing is saved | the dragged item moves, the new orders are saved and the content reordered | not executed | Myonly79Blocks.HandleDragOverUnbound, Myonly79Blocks.HandleDragEndUnbound, Myonly79Blocks.UnboundDragEndLosesOrder | Myonly79Blocks.HandleDragOver, Myonly79Blocks.HandleDragEnd |
| myonly/stickers.js:852-906 | `loadStickersFromStorage` re-creates each stored sticker through the creating path, under a fresh id, then looks up the element by the stored id (line 889), which the re-created sticker does not carry, so the stored size and link are not applied to it | one stored text sticker: after loading, storage holds two entries and the page sticker has the new id and the default size | each stored sticker comes back under its own id with its stored size and link | not executed | MyonlyStickers.StickersManager.LoadStickersFromStorage, MyonlyStickers.LoadDuplicatesAndLosesSize | MyonlyStickers.StickersManager.RestoreStickersFromStorage, MyonlyStickers.RestoreAllRestores |
| myonly/auth.js:157-183 | the stored security answer is encrypted with `btoa`, which throws on characters above U+00FF, and the answer is Chinese | the default answer itself: `btoa` rejects its first character, so the reset never succeeds | the answer is compared in a form every string has, and the right answer resets the password | not executed | MyonlyAuth.AuthSystem.VerifySecurityAnswer, MyonlyAuth.SecurityAnswerUnencodable | MyonlyAuth.AuthSystem.VerifySecurityAnswerAsIntended |
| deepseekooooo/auth.js:113-132 | the security reset encrypts the Chinese answer with `btoa`, which throws | the default answer: the encryption is rejected and the password is never reset | the right answer resets the password to the default | not executed | DeepseekAuth.VerifySecurityAnswer, DeepseekAuth.SecurityAnswerUnencodable | DeepseekAuth.VerifySecurityAnswerAsIntended, DeepseekAuth.ResetRestoresDefault |
| deepseekooooo/blocks.js:194-218 | `updateMainContentOrder` clears `#blocks-container` (line 200) and then looks each listed block up with `document.querySelector` (line 206), which no longer finds the detached blocks | blocks a and b on the page, and a drop that lists b before a: afterwards the page has no content block, `this.blocks` is empty, and `block_order` holds [b, a] | the content blocks follow the panel order and none is lost | not executed | DeepseekBlocks.BlocksManager.UpdateMainContentOrder | DeepseekBlocks.BlocksManager.UpdateMainContentOrderAsIntended, DeepseekBlocks.ArrangedFollowsPanel, DeepseekBlocks.ArrangedKeepsAll |
| deepseekooooo/stickers.js:237 | `createSticker` calls `this.findParentBlock`, which the class does not define, after the sticker is pushed | a saved list of two text stickers: loading stops after the first, which comes back as a default sticker | every saved sticker is created and restored | not executed | DeepseekStickers.StickersManager.CreateSticker, DeepseekStickers.StickersManager.LoadStickers, DeepseekStickers.TwoSavedOneLoaded | DeepseekStickers.StickersManager.CreateStickerAsIntended, DeepseekStickers.StickersManager.LoadStickersAsIntended |
| deepseekooooo/stickers.js:254-290 | every sticker's document-level handlers test one shared `this.isDragging` flag | two stickers, drag only the second: it moves, and the first sticker's record, whose offsets were never set, gets `NaN` coordinates (its `NaNpx` style is ignored, so it stays put on screen); on mouseup only the first sticker's position is saved, as `NaN`, which JSON stores as `null` | only the dragged sticker moves, and its own position is saved | not executed | DeepseekStickers.StickersManager.DragMouseMove, DeepseekStickers.StickersManager.DragMouseUp | DeepseekStickers.StickersManager.DragMouseDownAsIntended, DeepseekStickers.StickersManager.DragMouseMoveAsIntended, DeepseekStickers.StickersManager.DragMouseUpAsIntended |
| grokooooo/blocks.js:86 | `addBlock` colours the title through `querySelector('.block-title::before')`, which matches no element, so `.style` throws after the block is pushed and before the save | start-up: `initBlocks` stops inside its first `addBlock`, leaving only 项目1, unsaved; the add button is never wired and the rest of the start-up handler never runs | each block is added and saved, and start-up goes on | not executed | GrokBlocks.BlockList.AddBlockAsWritten, GrokBlocks.BlockList.InitBlocksAsWritten | GrokBlocks.BlockList.AddBlock, GrokBlocks.BlockList.InitBlocks |
| grokooooo/blocks.js:20 | `addBlock` names a new block `block-(count + 1)` from the current count, and delete filters by id | with line 86 corrected, blocks `block-1` and `block-2`: delete `block-1` and add a block, and there are two `block-2`; deleting one then removes both | ids stay distinct across deletes | not executed | GrokBlocks.IdReuse, GrokBlocks.BlockList.AddBlock | GrokBlocks.BlockList.AddBlockAsIntended, GrokBlocks.NumberedDistinct |
| grokooooo/stickers.js:220-239 | `getStickersData` saves `innerHTML` as the content; `setStickersData` passes it to `addSticker`, which uses it as the media source and ignores it for text | a saved image sticker reloads with its old markup as the source, and a text sticker reloads as 编辑文本 | a reload gives back each sticker's content | not executed | GrokStickers.ReloadLosesContent | GrokStickers.ReloadRoundTrip, GrokStickers.BoardRoundTrip, GrokStickers.StickerBoard.SetStickersDataAsIntended |
| chatgptxxxxx/stickers.js:187 | `text.replace(selected, link)` with a string replacement expands `$` patterns in the address and the selection | text `x`, selection `x`, address `a$&b`, with the toolbar still open when its button is pressed (see "## Left out"): the result is `[x](axb)` | the link is inserted literally: `[x](a$&b)` | not executed | ChatgptStickers.ApplyLinkDollarPattern | ChatgptStickers.ApplyLinkAsIntended, ChatgptStickers.ApplyLinkAgrees, ChatgptStickers.StickerLayer.ConfirmLinkAsIntended |
