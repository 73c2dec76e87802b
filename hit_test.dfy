/**
 * Hit-testing a point against the scene's region list: the two queries
 * the input handlers make, and what a click does to the stored selection.
 */
module HitTest {
  import opened Wrappers
  import opened Geometry
  import opened Controls
  import opened Layout

  /** Whether some region contains the point (the `some` query of the move handler). */
  function AnyHit(rs: seq<Controller>, p: Point): (b: bool)
    ensures b <==> exists i :: 0 <= i < |rs| && Contains(rs[i].rect, p)
  {
    if rs == [] then false
    else if Contains(rs[0].rect, p) then true
    else
      var rest := AnyHit(rs[1..], p);
      assert forall i :: 1 <= i < |rs| ==> rs[i] == rs[1..][i - 1];
      rest
  }

  /**
   * The control of the LAST region containing the point, if any. The click
   * handler writes the control of every containing region in list order,
   * so this is the one that stays in the store.
   */
  function LastHit(rs: seq<Controller>, p: Point): Option<string>
    decreases |rs|
  {
    if rs == [] then None
    else if Contains(rs[|rs| - 1].rect, p) then Some(rs[|rs| - 1].control)
    else LastHit(rs[..|rs| - 1], p)
  }

  /** The store after a click outside the start button, given the control of the last containing region. */
  function AfterSelection(items: map<string, string>, hit: Option<string>): map<string, string> {
    match hit
    case None => items
    case Some(c) => items[Player1ControlKey := c]
  }

  /** If region k contains the point and no later one does, the click selects region k's control. */
  lemma {:induction false} LastHitIsLastContaining(rs: seq<Controller>, p: Point, k: nat)
    requires k < |rs| && Contains(rs[k].rect, p)
    requires forall j :: k < j < |rs| ==> !Contains(rs[j].rect, p)
    ensures LastHit(rs, p) == Some(rs[k].control)
    decreases |rs|
  {
    if k < |rs| - 1 {
      var init := rs[..|rs| - 1];
      assert init[k] == rs[k];
      assert forall j :: k < j < |init| ==> init[j] == rs[j];
      LastHitIsLastContaining(init, p, k);
    }
  }

  /** Conversely, a selected control comes from a containing region with no containing region after it. */
  lemma {:induction false} LastHitComesFromRegion(rs: seq<Controller>, p: Point)
    requires LastHit(rs, p).Some?
    ensures exists k :: 0 <= k < |rs| && Contains(rs[k].rect, p) && rs[k].control == LastHit(rs, p).value
                        && forall j :: k < j < |rs| ==> !Contains(rs[j].rect, p)
    decreases |rs|
  {
    var n := |rs|;
    if !Contains(rs[n - 1].rect, p) {
      var init := rs[..n - 1];
      LastHitComesFromRegion(init, p);
      var k :| 0 <= k < |init| && Contains(init[k].rect, p) && init[k].control == LastHit(init, p).value
               && forall j :: k < j < |init| ==> !Contains(init[j].rect, p);
      assert rs[k] == init[k];
      assert forall j :: k < j < n - 1 ==> rs[j] == init[j];
    } else {
      assert Contains(rs[n - 1].rect, p);
    }
  }

  /** A click selects nothing exactly when no region contains the point; the two queries agree. */
  lemma {:induction false} LastHitNoneIffNoHit(rs: seq<Controller>, p: Point)
    ensures LastHit(rs, p) == None <==> !AnyHit(rs, p)
  {
    if LastHit(rs, p).Some? {
      LastHitComesFromRegion(rs, p);
    } else if AnyHit(rs, p) {
      var k :| 0 <= k < |rs| && Contains(rs[k].rect, p);
      LastHitAtLeast(rs, p, k);
    }
  }

  /** Some containing region at or after k makes the click select something. */
  lemma {:induction false} LastHitAtLeast(rs: seq<Controller>, p: Point, k: nat)
    requires k < |rs| && Contains(rs[k].rect, p)
    ensures LastHit(rs, p).Some?
    decreases |rs|
  {
    if k < |rs| - 1 && !Contains(rs[|rs| - 1].rect, p) {
      var init := rs[..|rs| - 1];
      assert init[k] == rs[k];
      LastHitAtLeast(init, p, k);
    }
  }

  /**
   * On a freshly laid out frame, a click inside control region k is never on
   * the start button, and it persists region k's control whenever k is the
   * last region or glyph k is narrower than 30 units: regions before k may
   * overlap k, but k writes after them.
   */
  lemma ClickSelectsRegion(maxWidth: real, maxHeight: real, buttonWidth: real, supportsTouch: bool,
                           measure: Measure, k: nat, p: Point, items: map<string, string>)
    requires k < |Glyphs(supportsTouch)|
    requires k == |Glyphs(supportsTouch)| - 1 || measure(Glyphs(supportsTouch)[k]) < 30
    requires Contains(ControlRegions(maxWidth, maxHeight, supportsTouch, measure)[k].rect, p)
    ensures !Contains(StartRegion(maxWidth, maxHeight, buttonWidth), p)
    ensures var rs := ControlRegions(maxWidth, maxHeight, supportsTouch, measure);
      && LastHit(rs, p) == Some(Glyphs(supportsTouch)[k])
      && PersistedControl(AfterSelection(items, LastHit(rs, p)), supportsTouch) == Glyphs(supportsTouch)[k]
  {
    var rs := ControlRegions(maxWidth, maxHeight, supportsTouch, measure);
    RegionsShape(maxWidth, maxHeight, supportsTouch, measure);
    StartRegionApart(maxWidth, maxHeight, buttonWidth, supportsTouch, measure);
    assert Disjoint(rs[k].rect, StartRegion(maxWidth, maxHeight, buttonWidth));
    forall j | k < j < |rs|
      ensures !Contains(rs[j].rect, p)
    {
      RegionGeometry(maxWidth, maxHeight, supportsTouch, measure, k);
      RegionGeometry(maxWidth, maxHeight, supportsTouch, measure, j);
      assert (k as real) + 1.0 <= j as real;
      SeparatedHorizontally(rs[k].rect, rs[j].rect);
    }
    LastHitIsLastContaining(rs, p, k);
  }

  /**
   * Conversely, when glyph k is 30 units wide or more and another region
   * follows it, some point of region k persists a different control: the
   * one on the left edge of region k + 1, where the later region writes last.
   */
  lemma WideGlyphLosesClick(maxWidth: real, maxHeight: real, supportsTouch: bool, measure: Measure, k: nat)
    requires k + 1 < |Glyphs(supportsTouch)|
    requires measure(Glyphs(supportsTouch)[k]) >= 30
    ensures var rs := ControlRegions(maxWidth, maxHeight, supportsTouch, measure);
      exists p :: Contains(rs[k].rect, p) && LastHit(rs, p).Some? && LastHit(rs, p) != Some(Glyphs(supportsTouch)[k])
  {
    var rs := ControlRegions(maxWidth, maxHeight, supportsTouch, measure);
    RegionsShape(maxWidth, maxHeight, supportsTouch, measure);
    RegionGeometry(maxWidth, maxHeight, supportsTouch, measure, k);
    RegionGeometry(maxWidth, maxHeight, supportsTouch, measure, k + 1);
    var p := Point(rs[k + 1].rect.x, RowY(maxHeight));
    assert Contains(rs[k].rect, p) && Contains(rs[k + 1].rect, p);
    LastHitAtLeast(rs, p, k + 1);
    LastHitComesFromRegion(rs, p);
    var m :| 0 <= m < |rs| && Contains(rs[m].rect, p) && rs[m].control == LastHit(rs, p).value
             && forall j :: m < j < |rs| ==> !Contains(rs[j].rect, p);
    assert m > k;
    GlyphsDistinct();
    assert rs[m].control != Glyphs(supportsTouch)[k];
  }
}
