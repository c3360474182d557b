/** The closed set of events the input engine produces (src/tui/InputEvent.hpp). */
module InputEvents {
  import opened Utf8
  import opened KeyCodes
  import Mod = Modifiers

  /** codepoint is 0 for a key that has no character. */
  datatype KeyEvent = KeyEvent(key: KeyCode, modifiers: Mod.Modifier, codepoint: U32)

  datatype MouseType = Press | Release | Move | ScrollUp | ScrollDown

  datatype MouseEvent = MouseEvent(kind: MouseType, button: int, x: int, y: int, modifiers: Mod.Modifier)

  datatype InputEvent =
    | Key(k: KeyEvent)
    | Mouse(m: MouseEvent)
    | Resize(columns: int, rows: int)
    | Paste(text: Bytes)

  /** KeyEvent { .key = k } with the default modifiers and codepoint. */
  function PlainKey(key: KeyCode): KeyEvent
  {
    KeyEvent(key, Mod.None, 0)
  }
}
