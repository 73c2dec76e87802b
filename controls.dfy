/**
 * The control schemes a player can pick and how the choice for player 1
 * is read back from the key-value settings store.
 */
module Controls {
  /** U+2328 KEYBOARD with emoji presentation selector U+FE0F. */
  const Keyboard: string := "\U{2328}\U{FE0F}"
  /** U+1F5B1 THREE BUTTON MOUSE with emoji presentation selector U+FE0F. */
  const Mouse: string := "\U{1F5B1}\U{FE0F}"
  /** U+1F3AE VIDEO GAME. */
  const Gamepad: string := "\U{1F3AE}"
  /** U+1F446 WHITE UP POINTING BACKHAND INDEX. */
  const Touch: string := "\U{1F446}"

  /** The settings key under which player 1's control is persisted. */
  const Player1ControlKey: string := "Player1Control"

  /** The control schemes offered, left to right. */
  function Glyphs(supportsTouch: bool): seq<string> {
    if supportsTouch then [Keyboard, Mouse, Gamepad, Touch] else [Keyboard, Mouse, Gamepad]
  }

  /** The platform default: touch where touch input exists, else keyboard. */
  function DefaultControl(supportsTouch: bool): string {
    if supportsTouch then Touch else Keyboard
  }

  /**
   * What `getPlayer1Control` yields for a store: a stored value is returned
   * as it is, whatever it holds; only an absent key falls back to the default.
   * So a read never invents a value: it is the stored string or an offered
   * glyph, and with nothing stored it is always a glyph the platform offers
   * (touch only where touch is supported).
   */
  function PersistedControl(items: map<string, string>, supportsTouch: bool): (c: string)
    ensures Player1ControlKey in items ==> c == items[Player1ControlKey]
    ensures Player1ControlKey !in items ==> c == DefaultControl(supportsTouch)
    ensures c in Glyphs(supportsTouch) || (Player1ControlKey in items && c == items[Player1ControlKey])
    ensures Player1ControlKey !in items ==> c in Glyphs(supportsTouch)
    ensures Player1ControlKey !in items ==> (c == Touch <==> supportsTouch)
  {
    if Player1ControlKey in items then items[Player1ControlKey] else DefaultControl(supportsTouch)
  }

  /** Writing a control and reading it back gives that control, on every platform. */
  lemma SetThenGet(items: map<string, string>, c: string, supportsTouch: bool)
    ensures PersistedControl(items[Player1ControlKey := c], supportsTouch) == c
  {
  }
}
