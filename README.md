# cbind key binding registry, modelled in Dafny

`Configuration` (configuration.go) maps a combination of modifier keys and a
key to a handler, and dispatches terminal key events to it. A named key
(Tab, Enter, an arrow key, ...) is stored under the text `"%d-%d"` of
(modifiers, key). A literal character is stored under `"%d:%d"` of
(modifiers, rune), except that '\t' and '\n' are stored as the named keys
Tab and Enter. `Capture` looks an event up by its rune when its key is
`KeyRune` and by its key otherwise. It calls the handler found there, or
returns the event unchanged, and it returns nil for a nil event.

The model has four modules:

- `Decimal` (decimal.dfy): Go's `%d` rendering of an integer, with a parser
  that reads it back. The round trip makes the rendering injective.
- `Events` (events.dfy): the key event, the 16-bit `ModMask` and `Key` and the
  32-bit rune, the named keys `KeyTab`, `KeyEnter` and `KeyRune`, and
  handlers. A handler is a total function from an event to an optional event.
  A nil event or a nil handler is `None`.
- `KeyNames` (keynames.dfy): `CompositeKey`, which is either `Named(mod, key)`
  or `Char(mod, ch)`. It also holds the two text encodings and `ParseKeyName`,
  which reads a name back. The round trip proves that two different composite
  keys never share a name. In particular a named key and a character with
  the same number never collide.
- `Cbind` (configuration.dfy): the class `Configuration`. Its `handlers`
  field is the string-keyed map of cbind's Go `Configuration`. A ghost field `bindings`
  holds the same table keyed by `CompositeKey`, and `Valid()` ties the two
  together. `SetKey` and `SetRune` update `handlers` in place. `Capture` is a
  read-only function of the object. It is proved equal to `Dispatch`, the
  meaning of a lookup over `bindings`, and the lemmas state the promised
  behaviour in terms of `Dispatch`.

A nil handler stored by `SetKey` or `SetRune` is kept in the table. `Capture`
treats it like a missing binding and returns the event unchanged
(configuration.go:71-76).

## Model

| member | source | states |
|---|---|---|
| Decimal.Format | configuration.go:33 | `%d` of an integer: non-empty, a leading '-' exactly for negative values, and decimal digits everywhere else |
| Decimal.FormatRoundTrip | configuration.go:33 | parsing the `%d` text of any integer gives that integer back |
| Decimal.FormatInjective | configuration.go:33 | two integers have the same `%d` text exactly when they are equal |
| KeyNames.FindSeparator | configuration.go:33 | helper of `ParseKeyName`, the inverse of the `Sprintf` encoding at lines 33 and 52 (the Go code never parses names): returns the position of the first '-' or ':' at or after the start point, or the length of the text when there is none |
| KeyNames.NamedKeyName | configuration.go:33 | `fmt.Sprintf("%d-%d", mod, key)`; never contains ':'; injectivity is proved by `KeyNames.KeyNameInjective` |
| KeyNames.RuneKeyName | configuration.go:52 | `fmt.Sprintf("%d:%d", mod, ch)`; has a ':' right after the modifiers and nowhere else; injectivity is proved by `KeyNames.KeyNameInjective` |
| KeyNames.KeyName | configuration.go:64-69 | the stored name of a composite key; it contains ':' exactly for character keys, so `KeyNames.NamedAndRuneNamesDisjoint` holds |
| KeyNames.SplitAtSeparator | configuration.go:33 | in "number, separator, rest", the first separator after the first character is the one that follows the number, even when the number is negative |
| KeyNames.ParseKeyNameRoundTrip | configuration.go:29-53 | every `"%d-%d"` name of a named key and every `"%d:%d"` name of a character reads back as the composite key it was made from |
| KeyNames.KeyNameInjective | configuration.go:29-53 | two composite keys have the same name exactly when they are the same key, for both kinds |
| KeyNames.NamedAndRuneNamesDisjoint | configuration.go:64-69 | a `"%d-%d"` named-key name never equals a `"%d:%d"` character name, whatever the numbers |
| Cbind.EventKey | configuration.go:64-69 | an event is looked up by its rune exactly when its key is `KeyRune`, otherwise by its key, always with its modifiers |
| Cbind.RuneKey | configuration.go:40-52 | `SetRune` stores under a character key exactly when the rune is neither '\t' nor '\n', and always keeps the modifiers |
| Cbind.RepresentsUpdate | configuration.go:33 | storing under the name of one composite key updates that one binding and leaves every other binding and stored name as it was |
| Cbind.NamesOfSize | configuration.go:33 | a set of composite keys has exactly as many distinct stored names as keys, because the encoding is injective |
| Cbind.NoStrayNames | configuration.go:14 | every name stored in a table that represents a composite-key table is the name of one of its bound keys |
| Cbind.Dispatch | configuration.go:60-76 | what `Capture` means: a nil event stays nil, and a result differs from the event only when a non-nil handler is bound to the event's key; the lemmas `CaptureNil`, `UnboundPassesThrough`, `CaptureAfterSetKey`, `CaptureAfterSetRune`, `RegistrationIsLocal` and `KindsNeverCross` prove the rest |
| Cbind.Configuration.constructor | configuration.go:19-26 | a new configuration has an empty handler table, and `Capture` returns every event, nil or not, unchanged |
| Cbind.Configuration.SetKey | configuration.go:29-34 | the handler table gains or overwrites exactly the entry `"%d-%d"` of (mod, key), so the last write wins; afterwards a non-`KeyRune` event with those modifiers and key gets the handler's result, and `Capture` of every event looked up under another key is what it was before; the invariant is kept |
| Cbind.Configuration.SetRune | configuration.go:37-53 | the handler table gains or overwrites exactly the entry for the rune's composite key; tab and newline go to Tab and Enter; afterwards a `KeyRune` event with those modifiers and rune (not tab or newline) gets the handler's result, and `Capture` of every event looked up under another key is what it was before; the invariant, including "no character entry for tab or newline", is kept |
| Cbind.Configuration.Capture | configuration.go:56-77 | the string-keyed lookup gives the same result as `Dispatch` over the composite-key view of the table |
| Cbind.FreshConfigurationPassesThrough | configuration.go:71-76 | with no bindings every event, nil or not, comes back unchanged |
| Cbind.CaptureNil | configuration.go:60-62 | a nil event gives nil whatever is bound |
| Cbind.UnboundPassesThrough | configuration.go:71-76 | an event whose key has no handler, or a nil handler, comes back unchanged and is never dropped |
| Cbind.CaptureAfterSetKey | configuration.go:64-73 | after binding f to (mod, key), a non-`KeyRune` event with those modifiers and key gets f's result |
| Cbind.CaptureAfterSetRune | configuration.go:64-73 | after binding f to (mod, ch) with ch not tab or newline, a `KeyRune` event with those modifiers and rune gets f's result |
| Cbind.SetRuneRedirects | configuration.go:40-47 | `SetRune` on '\t' stores exactly where `SetKey` on Tab stores, and '\n' exactly where Enter stores |
| Cbind.RegistrationIsLocal | configuration.go:33 | a registration changes the result only for events looked up under the registered key |
| Cbind.LastWriteWins | configuration.go:52 | registering a key twice leaves only the second handler |
| Cbind.KindsNeverCross | configuration.go:64-69 | a character binding never changes the result for a named-key event, nor a named-key binding for a character event |
| Cbind.KeyRuneBindingUnreachable | configuration.go:64-69 | a named-key binding for `KeyRune` itself never changes any result |
| Cbind.TabOrNewlineRunePassesThrough | configuration.go:40-47 | with no character binding for tab or newline, a `KeyRune` event carrying '\t' or '\n' comes back unchanged |

## Left out

- The `sync.RWMutex` and its locking (configuration.go:15, 30-31, 49-50, 57-58) are not modelled. Each operation is atomic and sequential. So is the hazard of running a handler while the read lock is held.
- The internals of tcell's event, key and modifier types are not modelled. `KeyTab`, `KeyEnter` and `KeyRune` carry tcell's values 9, 13 and 256, but only their distinctness matters.
- What handlers do is not modelled. They are arbitrary total functions whose result `Capture` returns verbatim. A handler that panics or does not return is not covered.
- Cbind.Configuration.Capture: cbind's Go `Capture` returns the very same `*tcell.EventKey` pointer for an unbound event. The model returns an equal event value, so pointer identity is not captured.
