/**
 * The parts of a terminal key event that key bindings look at. In Go
 * cbind these come from the tcell library; only the distinctness of the
 * three named keys below matters to the bindings.
 */
module Events {
  import opened Wrappers

  /** tcell.ModMask: a bit set of held modifier keys, a signed 16-bit integer. */
  type ModMask = x: int | -0x8000 <= x < 0x8000

  /** tcell.Key: a named key, a signed 16-bit integer. */
  type Key = x: int | -0x8000 <= x < 0x8000

  /** A Go rune: a signed 32-bit code point. */
  type Rune = x: int | -0x8000_0000 <= x < 0x8000_0000

  const KeyTab: Key := 9
  const KeyEnter: Key := 13
  /** The key of every event that carries a literal character in its rune. */
  const KeyRune: Key := 256

  /** The runes '\t' and '\n'. */
  const TabRune: Rune := 9
  const NewlineRune: Rune := 10

  datatype KeyEvent = KeyEvent(modifiers: ModMask, key: Key, rune: Rune)

  /** A bound handler: it receives the event and returns an event, or nil. */
  type EventHandler = KeyEvent -> Option<KeyEvent>

  /** What the handler table stores: a handler function, which may be nil. */
  type Handler = Option<EventHandler>
}
