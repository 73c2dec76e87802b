# Single-player settings scene of Breakout.js, modelled in Dafny

This project models the single-player settings screen of a browser paddle game. On that screen the
player picks the control scheme for player 1 (keyboard, mouse, gamepad, and touch where the device
supports it) and starts the game with a "Let's go!" button.

On every animation frame the game loop calls the scene's `update`, which empties the list of hit
regions, and then its `draw`, which lays out one region per control glyph and one for the start
button. The click and mouse-move handlers the scene registers on the document hit-test the event
point against those regions:

- a click on a glyph persists that glyph in the key-value settings store;
- a click on the start button raises the `singlePlayer` flag and hides or shows the cursor;
- a move over any region turns the cursor into a pointer.

The outlined (selected) glyph is decided by reading the store again during each draw, so the store
is the only record of the selection.

Modules:

- `Geometry`: points, rectangles, and containment with the edge included as the stand-in for
  `isPointInPath`. Rectangles with a negative width or height are normalised.
- `Controls`: the four glyph strings (the exact code points of the source), the store key, the
  platform default, and `PersistedControl`, which is what reading the store yields.
- `Layout`: the regions one draw produces, as pure functions of the canvas size, the touch
  capability and the measured text widths. It also holds the lemmas about their shape, geometry,
  overlap and highlighting.
- `HitTest`: the "any region contains the point" query of the move handler. It also holds
  `LastHit`, the control that remains stored after the click handler's loop, and the lemmas that
  relate the two.
- `Browser`: the shared browser objects the scene changes, as classes. These are the canvas cursor,
  the document's set of listener registrations, and the settings store.
- `SinglePlayerSettingsScene`: the scene as a class. It has fields for the selection, the flag, the
  region list and the start region. Each method of the source gets a contract stated over the
  functions and classes above.
- `Scenarios`: client methods that run a few frames and prove what they observe. One covers the
  selection round trip for every canvas, platform and width function; the others use a 480 x 360
  canvas.

Modelling choices:

- Coordinates and canvas dimensions are `real`. Text widths are natural numbers supplied by a
  `measure` function parameter, standing for `measureText` in the 24px control font.
- Event points arrive already mapped to canvas-local logical coordinates.
- `supportsTouch` is a constant field fixed at construction.
- Before the first draw the source has no drawing context, so both handlers would throw at their
  first hit test, and nothing they do changes any state. The model keeps `startRect` as `None`
  until the first draw, and both handlers then leave every state unchanged. The region list starts
  empty. In the source it is undefined until the first `update`, but no handler can read it before
  a draw.

Three behaviours of the code differ from what one might expect, and the model follows the code:

- One might expect an unknown stored value to fall back to the platform default. The code returns
  any stored string unchanged; only an absent key yields the default (`PersistedControl`).
- One might expect the settings to be read when the scene is constructed. The constructor does not
  read the store. The first read happens in the first draw.
- One might expect a click on a control region always to persist that region's control. The code
  writes the control of every region that contains the point, in list order, so the last one wins.
  Adjacent regions overlap once a glyph is 30 units wide or more (`Layout.RegionsDisjointIff`).
  A click anywhere in region k persists glyph k exactly when k is the last region or glyph k is
  narrower than 30 units (`HitTest.ClickSelectsRegion`, `HitTest.WideGlyphLosesClick`).

## Model

| member | source | states |
|---|---|---|
| `Controls.PersistedControl` | js/scenes/single-player-settings.js:136 | a read never invents a value: it is the stored string (kept even when it is no glyph) or an offered glyph; with nothing stored it is an offered glyph, and it is touch iff touch is supported |
| `Controls.SetThenGet` | js/scenes/single-player-settings.js:135-142 | storing a control and then reading it back yields that control |
| `Layout.RegionsShape` | js/scenes/single-player-settings.js:41-47 | one draw yields 3 regions (keyboard, mouse, gamepad) without touch and 4 with touch last, in that order, all for player 1; a touch region exists iff touch is supported |
| `Layout.GlyphsDistinct` | js/scenes/single-player-settings.js:42-46 | the four control glyphs are pairwise different strings |
| `Layout.RegionGeometry` | js/scenes/single-player-settings.js:41-71 | region i is the rectangle (startX + 40i - 5, maxHeight/2 - 14, width_i + 10, 29), where the baseline is maxHeight/2 + 10 and the font size 24 |
| `Layout.StartRegionCentred` | js/scenes/single-player-settings.js:54-63 | the start button is centred on the canvas with a 10-unit margin on each side of `buttonWidth`, is 32 high with its top at maxHeight/2 + 105, and contains the baseline of its "Let's go!" label |
| `Layout.StartRegionApart` | js/scenes/single-player-settings.js:54 | for any widths, no point lies both in the start button and in a control region |
| `Layout.AdjacentOverlap` | js/scenes/single-player-settings.js:42-46 | a glyph 30 or more units wide makes its region share a point with the next region |
| `Layout.RegionsDisjointIff` | js/scenes/single-player-settings.js:41-71 | the control regions are pairwise disjoint iff every glyph except the last is narrower than 30 units |
| `Layout.AtMostOneHighlighted` | js/scenes/single-player-settings.js:76-81 | a selected control matches at most one region, and matches some region iff it is one of the offered glyphs, so a foreign stored value highlights nothing |
| `HitTest.AnyHit` | js/scenes/single-player-settings.js:128 | the `some` query is true iff some region of the list contains the point |
| `HitTest.LastHitIsLastContaining` | js/scenes/single-player-settings.js:117-122 | if region k contains the point and no later region does, the click leaves region k's control in the store |
| `HitTest.LastHitComesFromRegion` | js/scenes/single-player-settings.js:117-122 | a control left in the store by a click is that of a containing region with no containing region after it |
| `HitTest.LastHitAtLeast` | js/scenes/single-player-settings.js:117-122 | one containing region is enough for the click to write the store |
| `HitTest.LastHitNoneIffNoHit` | js/scenes/single-player-settings.js:117-132 | a click writes nothing iff no region contains the point, iff the hover query is false |
| `HitTest.ClickSelectsRegion` | js/scenes/single-player-settings.js:103-122 | on a fresh layout, a click inside region k is not on the start button, and when k is the last region or glyph k is narrower than 30 it makes the stored selection read back as glyph k |
| `HitTest.WideGlyphLosesClick` | js/scenes/single-player-settings.js:117-122 | when glyph k is at least 30 wide and a region follows it, some click inside region k stores another glyph |
| `Browser.KeyValueStore.GetItem` | js/scenes/single-player-settings.js:136 | `getItem` returns the stored value for a present key and nothing for an absent one |
| `Browser.KeyValueStore.SetItem` | js/scenes/single-player-settings.js:141 | `setItem` overwrites exactly that key |
| `Browser.Document.AddEventListener` | js/scenes/single-player-settings.js:93 | registering adds the registration to the document's set, and a duplicate is not added twice |
| `Browser.Document.RemoveEventListener` | js/scenes/single-player-settings.js:99 | unregistering removes exactly that registration, and an absent registration is ignored |
| `SinglePlayerSettingsScene.SinglePlayerSettings.constructor` | js/scenes/single-player-settings.js:6-17 | the constructor adds the scene's click and move listeners to the document, sets `singlePlayer` false, the cursor to default, the control to the platform default, and leaves the store untouched |
| `SinglePlayerSettingsScene.SinglePlayerSettings.Update` | js/scenes/single-player-settings.js:19-21 | `update` empties the region list |
| `SinglePlayerSettingsScene.SinglePlayerSettings.Draw` | js/scenes/single-player-settings.js:23-64 | `draw` appends exactly the laid-out control regions, sets the start region and refreshes the control from the store; region i is highlighted iff its glyph equals the stored selection |
| `SinglePlayerSettingsScene.SinglePlayerSettings.AddControlButton` | js/scenes/single-player-settings.js:66-85 | `addControlButton` appends one padded region for the glyph, refreshes the control from the store, and highlights the glyph iff it equals that control |
| `SinglePlayerSettingsScene.SinglePlayerSettings.Dispose` | js/scenes/single-player-settings.js:87-89 | `dispose` removes exactly this scene's two listeners and leaves every other registration in place, so a second `dispose` changes nothing |
| `SinglePlayerSettingsScene.SinglePlayerSettings.SubscribeToInputEvents` | js/scenes/single-player-settings.js:91-96 | subscribing adds the click and the mouse-move registration bound to this scene |
| `SinglePlayerSettingsScene.SinglePlayerSettings.UnsubscribeToInputEvents` | js/scenes/single-player-settings.js:98-101 | unsubscribing removes the same two registrations |
| `SinglePlayerSettingsScene.SinglePlayerSettings.Clicked` | js/scenes/single-player-settings.js:103-123 | a click on the start button sets `singlePlayer` and makes the cursor visible iff the last-read control is the mouse, without writing the store; any other click writes the control of the last containing region, or nothing, and leaves the flag and the cursor alone; before the first draw nothing changes |
| `SinglePlayerSettingsScene.SinglePlayerSettings.Moved` | js/scenes/single-player-settings.js:125-133 | a move makes the cursor a pointer iff the point is on the start button or in some control region, and default otherwise; nothing else changes |
| `SinglePlayerSettingsScene.SinglePlayerSettings.GetPlayer1Control` | js/scenes/single-player-settings.js:135-138 | reading returns the persisted control (stored value, else the platform default) and overwrites the scene's control with it |
| `SinglePlayerSettingsScene.SinglePlayerSettings.SetPlayer1Control` | js/scenes/single-player-settings.js:140-142 | writing stores the control under the player-1 key and changes no other key |
| `Scenarios.SelectMouseThenStart` | js/scenes/single-player-settings.js:76-115 | with an empty store and no touch, keyboard is outlined first; a click on the mouse glyph stores the mouse, the next frame outlines only the mouse, and starting then keeps the cursor visible |
| `Scenarios.SelectThenRedraw` | js/scenes/single-player-settings.js:19-122 | for any canvas, platform and widths meeting the width condition, a frame, a click inside region k and the next frame leave glyph k persisted and outline region k and no other |
| `Scenarios.StartWithKeyboard` | js/scenes/single-player-settings.js:106-112 | starting with the keyboard selected hides the cursor |
| `Scenarios.ClickBeforeFirstDraw` | js/scenes/single-player-settings.js:103-106 | a click before the first draw changes neither the flag, the cursor nor the store |
| `Scenarios.HoverRegions` | js/scenes/single-player-settings.js:125-133 | hovering a glyph shows the pointer and hovering empty canvas the default cursor |
| `Scenarios.DisposeTwice` | js/scenes/single-player-settings.js:87-101 | disposing one of two scenes on a document twice leaves exactly the other scene's two listeners |

## Left out

- Painting: fonts, fill and stroke styles, line widths, `fillText`, `fill` and `stroke`. This
  includes the title and the "Select input method" and "Let's go!" labels. None of it decides
  anything; only the highlight choice is kept, as the `highlights` result of `Draw`.
- `measureText`: replaced by the `measure` parameter. Widths are integers, and floating-point,
  font-dependent widths are not modelled.
- `Path2D` and `isPointInPath`: replaced by closed rectangle containment. The context's device
  pixel ratio transform is not modelled. `dpr` is kept as a field that nothing in this model reads;
  nothing in `js/scenes/single-player-settings.js` reads it either.
- `writeHelp` and the help descriptions: `writeHelp` is a foreign UI call. The model only records,
  as the highlight flag, for which glyph it is called.
- `getXY`, the `Scene` base class and `e.preventDefault()`: they live in files that are not part of
  this model. Event points are taken as already mapped.
- Dispatching events from the document to the registered handlers: the handlers are called
  directly. The document is modelled only as the set of registrations, and the identity of a bound
  handler is its receiver plus the handler's name.
- Exceptions from `localStorage` (quota, or storage being disabled) are not modelled.
- JavaScript number arithmetic is taken as exact real arithmetic. Rounding is not modelled.
- `js/game.js`: the canvas lookup, the device pixel ratio scaling, `getContext` and the
  `requestAnimationFrame` loop are I/O and scheduling. The scene manager they call is not part of
  this model. The scenarios call `Update` then `Draw` once per frame, as the loop does.
