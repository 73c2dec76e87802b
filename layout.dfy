/**
 * The hit regions the settings scene lays out on every frame, as pure
 * functions of the canvas size, the touch capability and the text widths
 * the drawing context reports for the 24px control font.
 */
module Layout {
  import opened Geometry
  import opened Controls

  /** Width of a string in the current font, as `measureText(text).width` reports it. */
  type Measure = string -> nat

  /** One entry of the scene's region list: `{path, control, isPlayer1}`. */
  datatype Controller = Controller(rect: Rect, control: string, isPlayer1: bool)

  const MenuSpacing: real := 42.0
  const ControllerFontSize: real := 24.0
  /** Horizontal distance between the left edges of consecutive glyphs. */
  const GlyphSpacing: real := 40.0

  /** The strings measured to centre the glyph row (the mouse glyph there has no U+FE0F). */
  const RowWithTouch: string := "\U{2328}\U{FE0F}\U{1F5B1}\U{1F3AE}\U{1F446}"
  const RowWithoutTouch: string := "\U{2328}\U{FE0F}\U{1F5B1}\U{1F3AE}"

  /** Baseline of the glyph row. */
  function RowY(maxHeight: real): real {
    maxHeight / 2.0 + 10.0
  }

  /** Left edge of the first glyph: the measured row, padded, centred on the canvas. */
  function StartX(maxWidth: real, supportsTouch: bool, measure: Measure): real {
    maxWidth / 2.0 -
      (if supportsTouch then measure(RowWithTouch) as real + 44.0
       else measure(RowWithoutTouch) as real + 28.0) / 2.0
  }

  /** The region `addControlButton` records for a glyph drawn at (x, y). */
  function ControlRegion(text: string, x: real, y: real, measure: Measure): Controller {
    Controller(Rect(x - 5.0, y - ControllerFontSize, measure(text) as real + 10.0, ControllerFontSize + 5.0), text, true)
  }

  /** The regions one `draw` appends, in the order of its `addControlButton` calls. */
  function ControlRegions(maxWidth: real, maxHeight: real, supportsTouch: bool, measure: Measure): seq<Controller> {
    var x := StartX(maxWidth, supportsTouch, measure);
    var y := RowY(maxHeight);
    [ControlRegion(Keyboard, x, y, measure),
     ControlRegion(Mouse, x + GlyphSpacing, y, measure),
     ControlRegion(Gamepad, x + 2.0 * GlyphSpacing, y, measure)] +
    (if supportsTouch then [ControlRegion(Touch, x + 3.0 * GlyphSpacing, y, measure)] else [])
  }

  /** The "Let's go!" button's path. */
  function StartRegion(maxWidth: real, maxHeight: real, buttonWidth: real): Rect {
    Rect(maxWidth / 2.0 - buttonWidth / 2.0 - 10.0, maxHeight / 2.0 + MenuSpacing * 3.0 - 16.0 - 5.0,
         buttonWidth + 20.0, 32.0)
  }

  /**
   * Shape of the region list: one region per offered glyph, in the order
   * keyboard, mouse, gamepad (, touch), all for player 1; the touch region
   * is present exactly when touch input is supported.
   */
  lemma RegionsShape(maxWidth: real, maxHeight: real, supportsTouch: bool, measure: Measure)
    ensures var rs := ControlRegions(maxWidth, maxHeight, supportsTouch, measure);
      && |rs| == |Glyphs(supportsTouch)| == (if supportsTouch then 4 else 3)
      && (forall i :: 0 <= i < |rs| ==> rs[i].control == Glyphs(supportsTouch)[i] && rs[i].isPlayer1)
      && ((exists i :: 0 <= i < |rs| && rs[i].control == Touch) <==> supportsTouch)
  {
    var rs := ControlRegions(maxWidth, maxHeight, supportsTouch, measure);
    if supportsTouch {
      assert rs[3].control == Touch;
    } else {
      GlyphsDistinct();
    }
  }

  /** The four glyph strings differ pairwise. */
  lemma GlyphsDistinct()
    ensures forall i, j :: 0 <= i < j < 4 ==> Glyphs(true)[i] != Glyphs(true)[j]
  {
    assert Keyboard[0] != Mouse[0] && Keyboard[0] != Gamepad[0] && Keyboard[0] != Touch[0];
    assert Mouse[0] != Gamepad[0] && Mouse[0] != Touch[0] && Gamepad[0] != Touch[0];
  }

  /**
   * Geometry of the i-th control region: left edge 40 units per slot from
   * the row start less 5 padding, top 24 (the font size) above the
   * baseline maxHeight/2 + 10, width the glyph's measured width plus 10,
   * height 29.
   */
  lemma RegionGeometry(maxWidth: real, maxHeight: real, supportsTouch: bool, measure: Measure, i: nat)
    requires i < |Glyphs(supportsTouch)|
    ensures var rs := ControlRegions(maxWidth, maxHeight, supportsTouch, measure);
      && i < |rs|
      && rs[i].rect == Rect(StartX(maxWidth, supportsTouch, measure) + 40.0 * (i as real) - 5.0,
                            maxHeight / 2.0 - 14.0,
                            measure(Glyphs(supportsTouch)[i]) as real + 10.0, 29.0)
  {
  }

  /**
   * The start button is centred on the canvas, 10 units wider than
   * `buttonWidth` on each side, 32 high with its top at maxHeight/2 + 105,
   * and the "Let's go!" label, centred at baseline maxHeight/2 + 3 x 42,
   * sits inside it.
   */
  lemma StartRegionCentred(maxWidth: real, maxHeight: real, buttonWidth: real)
    ensures var r := StartRegion(maxWidth, maxHeight, buttonWidth);
      && r.x + r.w / 2.0 == maxWidth / 2.0
      && r.w == buttonWidth + 2.0 * 10.0
      && r.y == maxHeight / 2.0 + 105.0 && r.h == 32.0
      && r.y < maxHeight / 2.0 + MenuSpacing * 3.0 <= r.y + r.h
  {
  }

  /** Whatever the widths, the start button lies below the glyph row and shares no point with any control region. */
  lemma StartRegionApart(maxWidth: real, maxHeight: real, buttonWidth: real, supportsTouch: bool, measure: Measure)
    ensures var rs := ControlRegions(maxWidth, maxHeight, supportsTouch, measure);
      forall i :: 0 <= i < |rs| ==> Disjoint(rs[i].rect, StartRegion(maxWidth, maxHeight, buttonWidth))
  {
    var rs := ControlRegions(maxWidth, maxHeight, supportsTouch, measure);
    forall i | 0 <= i < |rs|
      ensures Disjoint(rs[i].rect, StartRegion(maxWidth, maxHeight, buttonWidth))
    {
      SeparatedVertically(rs[i].rect, StartRegion(maxWidth, maxHeight, buttonWidth));
    }
  }

  /** No point lies in two different regions of the list. */
  ghost predicate PairwiseDisjoint(rs: seq<Controller>) {
    forall i, j :: 0 <= i < j < |rs| ==> Disjoint(rs[i].rect, rs[j].rect)
  }

  /** Consecutive pads touch or overlap once a glyph is 30 units wide (40 spacing less 2 x 5 padding). */
  lemma AdjacentOverlap(maxWidth: real, maxHeight: real, supportsTouch: bool, measure: Measure, i: nat)
    requires i + 1 < |Glyphs(supportsTouch)|
    requires measure(Glyphs(supportsTouch)[i]) >= 30
    ensures var rs := ControlRegions(maxWidth, maxHeight, supportsTouch, measure);
      i + 1 < |rs| && !Disjoint(rs[i].rect, rs[i + 1].rect)
  {
    var rs := ControlRegions(maxWidth, maxHeight, supportsTouch, measure);
    RegionGeometry(maxWidth, maxHeight, supportsTouch, measure, i);
    RegionGeometry(maxWidth, maxHeight, supportsTouch, measure, i + 1);
    var p := Point(rs[i + 1].rect.x, RowY(maxHeight));
    assert Contains(rs[i].rect, p) && Contains(rs[i + 1].rect, p);
  }

  /**
   * The control regions are pairwise disjoint exactly when every glyph but
   * the last is narrower than 30 units.
   */
  lemma RegionsDisjointIff(maxWidth: real, maxHeight: real, supportsTouch: bool, measure: Measure)
    ensures var rs := ControlRegions(maxWidth, maxHeight, supportsTouch, measure);
      PairwiseDisjoint(rs) <==> forall i :: 0 <= i < |rs| - 1 ==> measure(rs[i].control) < 30
  {
    var rs := ControlRegions(maxWidth, maxHeight, supportsTouch, measure);
    RegionsShape(maxWidth, maxHeight, supportsTouch, measure);
    if forall i :: 0 <= i < |rs| - 1 ==> measure(rs[i].control) < 30 {
      forall i, j | 0 <= i < j < |rs|
        ensures Disjoint(rs[i].rect, rs[j].rect)
      {
        RegionGeometry(maxWidth, maxHeight, supportsTouch, measure, i);
        RegionGeometry(maxWidth, maxHeight, supportsTouch, measure, j);
        assert (i as real) + 1.0 <= j as real;
        SeparatedHorizontally(rs[i].rect, rs[j].rect);
      }
    } else {
      var i :| 0 <= i < |rs| - 1 && measure(rs[i].control) >= 30;
      AdjacentOverlap(maxWidth, maxHeight, supportsTouch, measure, i);
    }
  }

  /**
   * A given control is carried by at most one region, and by one exactly
   * when it is an offered glyph: so at most one region is highlighted, and
   * a foreign stored value highlights none.
   */
  lemma AtMostOneHighlighted(maxWidth: real, maxHeight: real, supportsTouch: bool, measure: Measure, selected: string)
    ensures var rs := ControlRegions(maxWidth, maxHeight, supportsTouch, measure);
      && (forall i, j :: 0 <= i < |rs| && 0 <= j < |rs| && rs[i].control == selected && rs[j].control == selected ==> i == j)
      && ((exists i :: 0 <= i < |rs| && rs[i].control == selected) <==> selected in Glyphs(supportsTouch))
  {
    RegionsShape(maxWidth, maxHeight, supportsTouch, measure);
    GlyphsDistinct();
    var rs := ControlRegions(maxWidth, maxHeight, supportsTouch, measure);
    if selected in Glyphs(supportsTouch) {
      var k :| 0 <= k < |Glyphs(supportsTouch)| && Glyphs(supportsTouch)[k] == selected;
      assert rs[k].control == selected;
    }
  }
}
