/**
 * The key binding registry. A `Configuration` stores handlers under text
 * key names, as cbind's Go `Configuration` does; the ghost field `bindings` is the same
 * table keyed by `CompositeKey`, and `Dispatch` says what `Capture` means
 * in terms of it. Locking is not modelled: each operation is atomic.
 */
module Cbind {
  import opened Wrappers
  import opened Events
  import opened KeyNames

  /** The composite key an incoming event is looked up under. */
  function EventKey(ev: KeyEvent): (k: CompositeKey)
    ensures k.mod == ev.modifiers
    ensures k.Char? <==> ev.key == KeyRune
    ensures k.Char? ==> k.ch == ev.rune
    ensures k.Named? ==> k.key == ev.key
  {
    if ev.key != KeyRune then Named(ev.modifiers, ev.key) else Char(ev.modifiers, ev.rune)
  }

  /** The composite key `SetRune` stores under: tab and newline go to their named keys. */
  function RuneKey(mod: ModMask, ch: Rune): (k: CompositeKey)
    ensures k.mod == mod
    ensures k.Char? <==> ch != TabRune && ch != NewlineRune
    ensures k.Char? ==> k.ch == ch
  {
    if ch == TabRune then Named(mod, KeyTab)
    else if ch == NewlineRune then Named(mod, KeyEnter)
    else Char(mod, ch)
  }

  /** No character binding exists for '\t' or '\n'. */
  ghost predicate Normalised(bindings: map<CompositeKey, Handler>) {
    forall mod: ModMask :: Char(mod, TabRune) !in bindings && Char(mod, NewlineRune) !in bindings
  }

  /**
   * The text-keyed table `handlers` holds exactly the entries of `bindings`,
   * each under its key name. Equal sizes rule out any other stored name
   * (see `NoStrayNames`).
   */
  ghost predicate Represents(handlers: map<string, Handler>, bindings: map<CompositeKey, Handler>) {
    && (forall k :: KeyName(k) in handlers <==> k in bindings)
    && (forall k :: k in bindings ==> handlers[KeyName(k)] == bindings[k])
    && |handlers| == |bindings|
  }

  /** Distinct composite keys have distinct names, so a set of keys has as many names as keys. */
  lemma {:induction false} NamesOfSize(keys: set<CompositeKey>)
    ensures |set k | k in keys :: KeyName(k)| == |keys|
    decreases keys
  {
    if keys != {} {
      var k :| k in keys;
      var rest := keys - {k};
      NamesOfSize(rest);
      var names, restNames := set k' | k' in keys :: KeyName(k'), set k' | k' in rest :: KeyName(k');
      forall k' | k' in rest ensures KeyName(k') != KeyName(k) {
        KeyNameInjective(k, k');
      }
      assert names == restNames + {KeyName(k)};
    }
  }

  /** Every name stored in a represented table is the name of a bound composite key. */
  lemma NoStrayNames(handlers: map<string, Handler>, bindings: map<CompositeKey, Handler>, s: string)
    requires Represents(handlers, bindings)
    requires s in handlers
    ensures exists k :: k in bindings && KeyName(k) == s
  {
    var names := set k | k in bindings :: KeyName(k);
    NamesOfSize(bindings.Keys);
    assert names <= handlers.Keys;
    assert |handlers.Keys - names| == |handlers.Keys| - |names|;
    assert s in names;
  }

  /** Storing under one key name changes the one binding it names and no other. */
  lemma RepresentsUpdate(handlers: map<string, Handler>, bindings: map<CompositeKey, Handler>,
                         k: CompositeKey, h: Handler)
    requires Represents(handlers, bindings)
    ensures Represents(handlers[KeyName(k) := h], bindings[k := h])
  {
    var handlers', bindings' := handlers[KeyName(k) := h], bindings[k := h];
    forall k' ensures (KeyName(k') in handlers' <==> k' in bindings')
      && (k' in bindings' ==> handlers'[KeyName(k')] == bindings'[k'])
    {
      KeyNameInjective(k, k');
    }
  }

  /**
   * The meaning of `Capture` over composite keys: nil stays nil; an event
   * whose key has a non-nil handler gets that handler's result; any other
   * event is returned unchanged.
   */
  function Dispatch(bindings: map<CompositeKey, Handler>, ev: Option<KeyEvent>): (r: Option<KeyEvent>)
    ensures ev.None? ==> r.None?
    ensures r != ev ==> ev.Some? && EventKey(ev.value) in bindings && bindings[EventKey(ev.value)].Some?
  {
    match ev
    case None => None
    case Some(e) =>
      var k := EventKey(e);
      if k in bindings && bindings[k].Some? then bindings[k].value(e) else ev
  }

  class Configuration {
    var handlers: map<string, Handler>
    ghost var bindings: map<CompositeKey, Handler>

    ghost predicate Valid()
      reads this
    {
      Represents(handlers, bindings) && Normalised(bindings)
    }

    /** A configuration with no bindings. */
    constructor ()
      ensures Valid()
      ensures handlers == map[] && bindings == map[]
      ensures forall ev: Option<KeyEvent> :: Capture(ev) == ev
    {
      handlers := map[];
      bindings := map[];
    }

    /** Binds `handler` to the named key `key` held with `mod`, replacing any earlier handler for it. */
    method SetKey(mod: ModMask, key: Key, handler: Handler)
      requires Valid()
      modifies this
      ensures Valid()
      ensures handlers == old(handlers)[NamedKeyName(mod, key) := handler]
      ensures bindings == old(bindings)[Named(mod, key) := handler]
      ensures forall e: KeyEvent :: handler.Some? && e.key != KeyRune && e.modifiers == mod && e.key == key
                ==> Capture(Some(e)) == handler.value(e)
      ensures forall ev: Option<KeyEvent> :: (ev.None? || EventKey(ev.value) != Named(mod, key)) ==> Capture(ev) == old(Capture(ev))
    {
      RepresentsUpdate(handlers, bindings, Named(mod, key), handler);
      handlers := handlers[NamedKeyName(mod, key) := handler];
      bindings := bindings[Named(mod, key) := handler];
      forall e: KeyEvent | handler.Some? && e.key != KeyRune && e.modifiers == mod && e.key == key
        ensures Capture(Some(e)) == handler.value(e)
      {
        CaptureAfterSetKey(old(bindings), mod, key, handler.value, e);
      }
      forall ev: Option<KeyEvent> | ev.None? || EventKey(ev.value) != Named(mod, key)
        ensures Capture(ev) == old(Capture(ev))
      {
        RegistrationIsLocal(old(bindings), Named(mod, key), handler, ev);
        assert Capture(ev) == Dispatch(bindings, ev);
      }
    }

    /**
     * Binds `handler` to the character `ch` held with `mod`; '\t' and '\n'
     * are bound to the named keys Tab and Enter instead.
     */
    method SetRune(mod: ModMask, ch: Rune, handler: Handler)
      requires Valid()
      modifies this
      ensures Valid()
      ensures handlers == old(handlers)[KeyName(RuneKey(mod, ch)) := handler]
      ensures bindings == old(bindings)[RuneKey(mod, ch) := handler]
      ensures forall e: KeyEvent :: handler.Some? && ch != TabRune && ch != NewlineRune
                && e.key == KeyRune && e.modifiers == mod && e.rune == ch
                ==> Capture(Some(e)) == handler.value(e)
      ensures forall ev: Option<KeyEvent> :: (ev.None? || EventKey(ev.value) != RuneKey(mod, ch)) ==> Capture(ev) == old(Capture(ev))
    {
      if ch == TabRune {
        SetKey(mod, KeyTab, handler);
        return;
      }
      if ch == NewlineRune {
        SetKey(mod, KeyEnter, handler);
        return;
      }
      RepresentsUpdate(handlers, bindings, Char(mod, ch), handler);
      handlers := handlers[RuneKeyName(mod, ch) := handler];
      bindings := bindings[Char(mod, ch) := handler];
      forall e: KeyEvent | handler.Some? && e.key == KeyRune && e.modifiers == mod && e.rune == ch
        ensures Capture(Some(e)) == handler.value(e)
      {
        CaptureAfterSetRune(old(bindings), mod, ch, handler.value, e);
      }
      forall ev: Option<KeyEvent> | ev.None? || EventKey(ev.value) != Char(mod, ch)
        ensures Capture(ev) == old(Capture(ev))
      {
        RegistrationIsLocal(old(bindings), Char(mod, ch), handler, ev);
        assert Capture(ev) == Dispatch(bindings, ev);
      }
    }

    /** Hands `ev` to the handler bound to its key, or returns it unchanged. */
    function Capture(ev: Option<KeyEvent>): (r: Option<KeyEvent>)
      reads this
      requires Valid()
      ensures r == Dispatch(bindings, ev)
    {
      if ev.None? then None
      else
        var e := ev.value;
        var keyName := if e.key != KeyRune then NamedKeyName(e.modifiers, e.key)
                       else RuneKeyName(e.modifiers, e.rune);
        var handler := if keyName in handlers then handlers[keyName] else None;
        if handler.Some? then handler.value(e) else ev
    }
  }

  /** A fresh configuration returns every event unchanged. */
  lemma FreshConfigurationPassesThrough(ev: Option<KeyEvent>)
    ensures Dispatch(map[], ev) == ev
  {
  }

  /** A nil event is answered with nil whatever is bound. */
  lemma CaptureNil(bindings: map<CompositeKey, Handler>)
    ensures Dispatch(bindings, None) == None
  {
  }

  /** An event whose key has no handler, or a nil one, comes back unchanged. */
  lemma UnboundPassesThrough(bindings: map<CompositeKey, Handler>, e: KeyEvent)
    requires EventKey(e) !in bindings || bindings[EventKey(e)].None?
    ensures Dispatch(bindings, Some(e)) == Some(e)
  {
  }

  /** After `SetKey(mod, key, f)`, a named-key event with those modifiers and key gets `f`'s result. */
  lemma CaptureAfterSetKey(bindings: map<CompositeKey, Handler>, mod: ModMask, key: Key,
                           f: EventHandler, e: KeyEvent)
    requires e.key != KeyRune && e.modifiers == mod && e.key == key
    ensures Dispatch(bindings[Named(mod, key) := Some(f)], Some(e)) == f(e)
  {
  }

  /** After `SetRune(mod, ch, f)` with `ch` neither tab nor newline, a character event for `ch` gets `f`'s result. */
  lemma CaptureAfterSetRune(bindings: map<CompositeKey, Handler>, mod: ModMask, ch: Rune,
                            f: EventHandler, e: KeyEvent)
    requires ch != TabRune && ch != NewlineRune
    requires e.key == KeyRune && e.modifiers == mod && e.rune == ch
    ensures Dispatch(bindings[RuneKey(mod, ch) := Some(f)], Some(e)) == f(e)
  {
  }

  /** `SetRune` on '\t' and '\n' stores exactly what `SetKey` on Tab and Enter stores. */
  lemma SetRuneRedirects(mod: ModMask)
    ensures RuneKey(mod, TabRune) == Named(mod, KeyTab)
    ensures RuneKey(mod, NewlineRune) == Named(mod, KeyEnter)
  {
  }

  /** A registration changes the answer only for events looked up under its own key. */
  lemma RegistrationIsLocal(bindings: map<CompositeKey, Handler>, k: CompositeKey, h: Handler,
                            ev: Option<KeyEvent>)
    requires ev.None? || EventKey(ev.value) != k
    ensures Dispatch(bindings[k := h], ev) == Dispatch(bindings, ev)
  {
  }

  /** Re-registering a key makes only the last handler reachable. */
  lemma LastWriteWins(bindings: map<CompositeKey, Handler>, k: CompositeKey, h1: Handler, h2: Handler)
    ensures bindings[k := h1][k := h2] == bindings[k := h2]
  {
  }

  /** A character binding never answers a named-key event, and a named-key binding never a character event. */
  lemma KindsNeverCross(bindings: map<CompositeKey, Handler>, k: CompositeKey, h: Handler, e: KeyEvent)
    requires k.Char? <==> e.key != KeyRune
    ensures Dispatch(bindings[k := h], Some(e)) == Dispatch(bindings, Some(e))
  {
  }

  /** A named-key binding for KeyRune itself can never be reached: such events are looked up by rune. */
  lemma KeyRuneBindingUnreachable(bindings: map<CompositeKey, Handler>, mod: ModMask, h: Handler,
                                  ev: Option<KeyEvent>)
    ensures Dispatch(bindings[Named(mod, KeyRune) := h], ev) == Dispatch(bindings, ev)
  {
  }

  /** In a normalised table, a character event carrying '\t' or '\n' is returned unchanged. */
  lemma TabOrNewlineRunePassesThrough(bindings: map<CompositeKey, Handler>, e: KeyEvent)
    requires Normalised(bindings)
    requires e.key == KeyRune && (e.rune == TabRune || e.rune == NewlineRune)
    ensures Dispatch(bindings, Some(e)) == Some(e)
  {
  }
}
