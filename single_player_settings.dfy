/**
 * The single-player settings scene: the player picks a control scheme
 * for player 1 among the offered glyphs and starts the game with the
 * "Let's go!" button.
 *
 * Each frame the game loop calls `Update`, which empties the region list,
 * then `Draw`, which lays the regions out again and re-reads the stored
 * selection to decide which glyph is outlined. The click and move handlers
 * hit-test against the regions of the last draw.
 */
module SinglePlayerSettingsScene {
  import opened Wrappers
  import opened Geometry
  import opened Controls
  import opened Layout
  import opened HitTest
  import opened Browser

  class SinglePlayerSettings {
    const canvas: Canvas
    const document: Document
    const storage: KeyValueStore
    const maxWidth: real
    const maxHeight: real
    const dpr: real
    const buttonWidth: real
    const supportsTouch: bool

    /** Raised once the start button is clicked; the scene manager reacts to it. */
    var singlePlayer: bool
    /** The control last read from the store (or the platform default before any read). */
    var control: string
    /** Regions recorded by the draws since the last update. */
    var controllers: seq<Controller>
    /** The start button's path; None until the first draw, when the handlers cannot hit-test yet. */
    var startRect: Option<Rect>

    /** The click listener this scene registers. */
    function ClickListener(): Registration {
      Registration("click", Bound(this, "clickedHandler"))
    }

    /** The mouse-move listener this scene registers. */
    function MoveListener(): Registration {
      Registration("mousemove", Bound(this, "moveHandler"))
    }

    ghost predicate Valid()
      reads this
    {
      && (forall i :: 0 <= i < |controllers| ==> controllers[i].isPlayer1)
      && (startRect.Some? ==> startRect.value == StartRegion(maxWidth, maxHeight, buttonWidth))
    }

    /** Subscribes to click and move events; the settings store is not read. */
    constructor (canvas: Canvas, document: Document, storage: KeyValueStore,
                 maxWidth: real, maxHeight: real, dpr: real, buttonWidth: real, supportsTouch: bool)
      modifies document, canvas
      ensures Valid()
      ensures this.canvas == canvas && this.document == document && this.storage == storage
      ensures this.maxWidth == maxWidth && this.maxHeight == maxHeight && this.dpr == dpr
      ensures this.buttonWidth == buttonWidth && this.supportsTouch == supportsTouch
      ensures !singlePlayer && canvas.cursor == Default
      ensures control == DefaultControl(supportsTouch)
      ensures controllers == [] && startRect == None
      ensures document.listeners == old(document.listeners) + {ClickListener(), MoveListener()}
    {
      this.canvas := canvas;
      this.document := document;
      this.storage := storage;
      this.maxWidth := maxWidth;
      this.maxHeight := maxHeight;
      this.dpr := dpr;
      this.buttonWidth := buttonWidth;
      this.supportsTouch := supportsTouch;
      controllers := [];
      startRect := None;
      new;
      SubscribeToInputEvents();
      singlePlayer := false;
      control := DefaultControl(supportsTouch);
      canvas.cursor := Default;
    }

    /** Starts the frame with an empty region list. */
    method Update()
      requires Valid()
      modifies this`controllers
      ensures Valid()
      ensures controllers == []
    {
      controllers := [];
    }

    /**
     * Lays out and records the control regions and the start button.
     * `highlights[i]` says whether region i of this draw is outlined in
     * green (and its help text written): exactly when its glyph equals the
     * stored selection.
     */
    method Draw(measure: Measure) returns (highlights: seq<bool>)
      requires Valid()
      modifies this`controllers, this`control, this`startRect
      ensures Valid()
      ensures controllers == old(controllers) + ControlRegions(maxWidth, maxHeight, supportsTouch, measure)
      ensures startRect == Some(StartRegion(maxWidth, maxHeight, buttonWidth))
      ensures control == PersistedControl(storage.items, supportsTouch)
      ensures var rs := ControlRegions(maxWidth, maxHeight, supportsTouch, measure);
        |highlights| == |rs| &&
        forall i :: 0 <= i < |rs| ==> (highlights[i] <==> rs[i].control == PersistedControl(storage.items, supportsTouch))
    {
      var x := StartX(maxWidth, supportsTouch, measure);
      var y := RowY(maxHeight);
      var h0 := AddControlButton(Keyboard, x, y, measure);
      var h1 := AddControlButton(Mouse, x + GlyphSpacing, y, measure);
      var h2 := AddControlButton(Gamepad, x + 2.0 * GlyphSpacing, y, measure);
      highlights := [h0, h1, h2];
      if supportsTouch {
        var h3 := AddControlButton(Touch, x + 3.0 * GlyphSpacing, y, measure);
        highlights := highlights + [h3];
      }
      startRect := Some(StartRegion(maxWidth, maxHeight, buttonWidth));
    }

    /** Records the region of one glyph and tells whether it is the stored selection. */
    method AddControlButton(text: string, x: real, y: real, measure: Measure) returns (highlighted: bool)
      requires Valid()
      modifies this`controllers, this`control
      ensures Valid()
      ensures controllers == old(controllers) + [ControlRegion(text, x, y, measure)]
      ensures control == PersistedControl(storage.items, supportsTouch)
      ensures highlighted <==> text == PersistedControl(storage.items, supportsTouch)
    {
      var selected := GetPlayer1Control();
      highlighted := text == selected;
      controllers := controllers + [ControlRegion(text, x, y, measure)];
    }

    /** Unsubscribes this scene's two listeners. */
    method Dispose()
      modifies document
      ensures document.listeners == old(document.listeners) - {ClickListener(), MoveListener()}
    {
      UnsubscribeToInputEvents();
    }

    method SubscribeToInputEvents()
      modifies document
      ensures document.listeners == old(document.listeners) + {ClickListener(), MoveListener()}
    {
      document.AddEventListener(ClickListener());
      document.AddEventListener(MoveListener());
    }

    method UnsubscribeToInputEvents()
      modifies document
      ensures document.listeners == old(document.listeners) - {ClickListener(), MoveListener()}
    {
      document.RemoveEventListener(ClickListener());
      document.RemoveEventListener(MoveListener());
    }

    /**
     * A click on the start button raises `singlePlayer` and shows the
     * cursor only when the last-read control is the mouse. Any other click
     * persists the control of every region containing the point, in list
     * order, so the last such region's control is what the store keeps.
     * Before the first draw nothing changes.
     */
    method Clicked(p: Point)
      requires Valid()
      modifies this`singlePlayer, canvas`cursor, storage`items
      ensures Valid()
      ensures startRect.None? ==>
        singlePlayer == old(singlePlayer) && canvas.cursor == old(canvas.cursor) && storage.items == old(storage.items)
      ensures startRect.Some? && Contains(StartRegion(maxWidth, maxHeight, buttonWidth), p) ==>
        && singlePlayer
        && canvas.cursor == (if control == Mouse then Default else Hidden)
        && storage.items == old(storage.items)
      ensures startRect.Some? && !Contains(StartRegion(maxWidth, maxHeight, buttonWidth), p) ==>
        && singlePlayer == old(singlePlayer)
        && canvas.cursor == old(canvas.cursor)
        && storage.items == AfterSelection(old(storage.items), LastHit(controllers, p))
    {
      if startRect.None? {
        return;
      }
      if Contains(startRect.value, p) {
        singlePlayer := true;
        if control == Mouse {
          canvas.cursor := Default;
        } else {
          canvas.cursor := Hidden;
        }
        return;
      }
      var i := 0;
      while i < |controllers|
        invariant 0 <= i <= |controllers|
        invariant storage.items == AfterSelection(old(storage.items), LastHit(controllers[..i], p))
        invariant singlePlayer == old(singlePlayer) && canvas.cursor == old(canvas.cursor)
      {
        assert controllers[..i + 1][..i] == controllers[..i];
        if Contains(controllers[i].rect, p) {
          SetPlayer1Control(controllers[i].control);
        }
        i := i + 1;
      }
      assert controllers[..i] == controllers;
    }

    /** The cursor becomes a pointer over the start button or any control region, else the default. */
    method Moved(p: Point)
      requires Valid()
      modifies canvas`cursor
      ensures startRect.None? ==> canvas.cursor == old(canvas.cursor)
      ensures startRect.Some? ==>
        (canvas.cursor == Pointer <==>
           Contains(StartRegion(maxWidth, maxHeight, buttonWidth), p)
           || exists i :: 0 <= i < |controllers| && Contains(controllers[i].rect, p))
      ensures startRect.Some? ==> canvas.cursor in {Pointer, Default}
    {
      if startRect.None? {
        return;
      }
      if Contains(startRect.value, p) || AnyHit(controllers, p) {
        canvas.cursor := Pointer;
      } else {
        canvas.cursor := Default;
      }
    }

    /** Reads the stored selection, falling back to the platform default, and remembers it. */
    method GetPlayer1Control() returns (c: string)
      modifies this`control
      ensures c == PersistedControl(storage.items, supportsTouch)
      ensures control == c
    {
      var stored := storage.GetItem(Player1ControlKey);
      control := match stored
        case Some(v) => v
        case None => DefaultControl(supportsTouch);
      c := control;
    }

    method SetPlayer1Control(c: string)
      modifies storage`items
      ensures storage.items == old(storage.items)[Player1ControlKey := c]
    {
      storage.SetItem(Player1ControlKey, c);
    }
  }
}
