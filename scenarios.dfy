/**
 * Clients of the scene that follow one game-loop frame at a time on a
 * 480 x 360 canvas without touch input, every glyph measuring 20 units
 * and the whole glyph row 20 units, with a 100-unit start button.
 * The glyph row then starts at x = 216 on baseline y = 190; the mouse
 * region spans x 251..281, y 166..195; the start button spans
 * x 180..300, y 285..317.
 */
module Scenarios {
  import opened Wrappers
  import opened Geometry
  import opened Controls
  import opened Layout
  import opened HitTest
  import opened Browser
  import opened SinglePlayerSettingsScene

  /**
   * Fresh store: keyboard is outlined; clicking the mouse glyph persists
   * the mouse, the next frame outlines the mouse instead, and starting
   * the game then leaves the cursor visible.
   */
  method SelectMouseThenStart() returns (before: seq<bool>, stored: Option<string>, after: seq<bool>,
                                         started: bool, cursor: Cursor)
    ensures before == [true, false, false]
    ensures stored == Some(Mouse)
    ensures after == [false, true, false]
    ensures started && cursor == Default
  {
    var canvas := new Canvas(Default);
    var document := new Document();
    var storage := new KeyValueStore(map[]);
    var scene := new SinglePlayerSettings(canvas, document, storage, 480.0, 360.0, 1.0, 100.0, false);
    var measure: Measure := _ => 20;

    scene.Update();
    before := scene.Draw(measure);
    var onMouse := Point(260.0, 180.0);
    ClickSelectsRegion(480.0, 360.0, 100.0, false, measure, 1, onMouse, map[]);
    scene.Clicked(onMouse);
    stored := storage.GetItem(Player1ControlKey);

    scene.Update();
    after := scene.Draw(measure);
    scene.Clicked(Point(240.0, 300.0));
    started, cursor := scene.singlePlayer, canvas.cursor;
  }

  /**
   * The selection round trip for any canvas, button width, platform and
   * widths: after a frame, a click inside region k (where k is the last
   * region or glyph k is narrower than 30 units) persists glyph k, and the
   * next frame outlines region k and no other.
   */
  method SelectThenRedraw(scene: SinglePlayerSettings, measure: Measure, k: nat, p: Point)
    returns (highlights: seq<bool>)
    requires scene.Valid()
    requires k < |Glyphs(scene.supportsTouch)|
    requires k == |Glyphs(scene.supportsTouch)| - 1 || measure(Glyphs(scene.supportsTouch)[k]) < 30
    requires Contains(ControlRegions(scene.maxWidth, scene.maxHeight, scene.supportsTouch, measure)[k].rect, p)
    modifies scene, scene.canvas, scene.storage
    ensures PersistedControl(scene.storage.items, scene.supportsTouch) == Glyphs(scene.supportsTouch)[k]
    ensures |highlights| == |Glyphs(scene.supportsTouch)|
    ensures forall i :: 0 <= i < |highlights| ==> (highlights[i] <==> i == k)
  {
    var rs := ControlRegions(scene.maxWidth, scene.maxHeight, scene.supportsTouch, measure);
    scene.Update();
    var _ := scene.Draw(measure);
    assert scene.controllers == rs;
    ClickSelectsRegion(scene.maxWidth, scene.maxHeight, scene.buttonWidth, scene.supportsTouch,
                       measure, k, p, scene.storage.items);
    scene.Clicked(p);
    scene.Update();
    highlights := scene.Draw(measure);
    RegionsShape(scene.maxWidth, scene.maxHeight, scene.supportsTouch, measure);
    AtMostOneHighlighted(scene.maxWidth, scene.maxHeight, scene.supportsTouch, measure, Glyphs(scene.supportsTouch)[k]);
  }

  /** With the keyboard selected, starting the game hides the cursor. */
  method StartWithKeyboard() returns (started: bool, cursor: Cursor)
    ensures started && cursor == Hidden
  {
    var canvas := new Canvas(Default);
    var document := new Document();
    var storage := new KeyValueStore(map[]);
    var scene := new SinglePlayerSettings(canvas, document, storage, 480.0, 360.0, 1.0, 100.0, false);
    var measure: Measure := _ => 20;

    scene.Update();
    var _ := scene.Draw(measure);
    scene.Clicked(Point(240.0, 300.0));
    started, cursor := scene.singlePlayer, canvas.cursor;
  }

  /** Before the first draw, a click on where the start button will be changes nothing. */
  method ClickBeforeFirstDraw() returns (started: bool, cursor: Cursor, items: map<string, string>)
    ensures !started && cursor == Default && items == map[]
  {
    var canvas := new Canvas(Default);
    var document := new Document();
    var storage := new KeyValueStore(map[]);
    var scene := new SinglePlayerSettings(canvas, document, storage, 480.0, 360.0, 1.0, 100.0, false);
    scene.Clicked(Point(240.0, 300.0));
    started, cursor, items := scene.singlePlayer, canvas.cursor, storage.items;
  }

  /**
   * Hovering the mouse glyph shows the pointer; hovering empty canvas
   * shows the default cursor.
   */
  method HoverRegions() returns (overGlyph: Cursor, elsewhere: Cursor)
    ensures overGlyph == Pointer && elsewhere == Default
  {
    var canvas := new Canvas(Default);
    var document := new Document();
    var storage := new KeyValueStore(map[]);
    var scene := new SinglePlayerSettings(canvas, document, storage, 480.0, 360.0, 1.0, 100.0, false);
    var measure: Measure := _ => 20;

    scene.Update();
    var _ := scene.Draw(measure);
    assert Contains(scene.controllers[1].rect, Point(260.0, 180.0));
    scene.Moved(Point(260.0, 180.0));
    overGlyph := canvas.cursor;
    scene.Moved(Point(10.0, 10.0));
    elsewhere := canvas.cursor;
  }

  /**
   * Two scenes on one document: disposing the first twice removes its two
   * listeners once and leaves the second scene's listeners registered.
   */
  method DisposeTwice() returns (afterFirst: set<Registration>, afterSecond: set<Registration>, other: set<Registration>)
    ensures afterFirst == afterSecond == other
    ensures |other| == 2
  {
    var canvas := new Canvas(Default);
    var document := new Document();
    var storage := new KeyValueStore(map[]);
    var first := new SinglePlayerSettings(canvas, document, storage, 480.0, 360.0, 1.0, 100.0, false);
    var second := new SinglePlayerSettings(canvas, document, storage, 480.0, 360.0, 1.0, 100.0, true);
    other := {second.ClickListener(), second.MoveListener()};
    first.Dispose();
    afterFirst := document.listeners;
    first.Dispose();
    afterSecond := document.listeners;
  }
}
