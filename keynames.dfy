/**
 * Composite keys and their text encoding. A named-key binding is stored
 * under `"%d-%d"` of (modifiers, key) and a character binding under
 * `"%d:%d"` of (modifiers, rune). `ParseKeyName` reads a name back, and its
 * round trip shows that no two composite keys share a name: in particular a
 * named key and a character with the same number never collide.
 */
module KeyNames {
  import opened Wrappers
  import opened Events
  import opened Decimal

  /** What a handler is registered under. */
  datatype CompositeKey = Named(mod: ModMask, key: Key) | Char(mod: ModMask, ch: Rune)

  /** `fmt.Sprintf("%d-%d", mod, key)`: never contains the ':' of a character name. */
  function NamedKeyName(mod: ModMask, key: Key): (s: string)
    ensures ':' !in s
  {
    Format(mod) + "-" + Format(key)
  }

  /** `fmt.Sprintf("%d:%d", mod, ch)`: a ':' right after the modifiers, and nowhere else. */
  function RuneKeyName(mod: ModMask, ch: Rune): (s: string)
    ensures |Format(mod)| < |s| && s[|Format(mod)|] == ':'
    ensures forall i :: 0 <= i < |s| && i != |Format(mod)| ==> s[i] != ':'
  {
    Format(mod) + ":" + Format(ch)
  }

  /** The text key a binding is stored under; the ':' tells the two kinds apart. */
  function KeyName(k: CompositeKey): (s: string)
    ensures ':' in s <==> k.Char?
  {
    match k
    case Named(mod, key) => NamedKeyName(mod, key)
    case Char(mod, ch) => RuneKeyName(mod, ch)
  }

  predicate IsSeparator(c: char) {
    c == '-' || c == ':'
  }

  /** The first separator at or after `from`, or `|s|` when there is none. */
  function FindSeparator(s: string, from: nat): (j: nat)
    requires from <= |s|
    ensures from <= j <= |s|
    ensures j < |s| ==> IsSeparator(s[j])
    ensures forall k :: from <= k < j ==> !IsSeparator(s[k])
    decreases |s| - from
  {
    if from == |s| || IsSeparator(s[from]) then from else FindSeparator(s, from + 1)
  }

  /**
   * Reads a key name back: the modifiers run up to the first separator after
   * the first character (which may be a minus sign), the separator gives the
   * kind, and the rest is the key or rune.
   */
  function ParseKeyName(s: string): Option<CompositeKey> {
    if |s| == 0 then None
    else
      var j := FindSeparator(s, 1);
      if j == |s| then None
      else
        match (ParseDecimal(s[..j]), ParseDecimal(s[j + 1..]))
        case (Some(m), Some(x)) =>
          if !(-0x8000 <= m < 0x8000) then None
          else if s[j] == '-' then
            if -0x8000 <= x < 0x8000 then Some(Named(m, x)) else None
          else if -0x8000_0000 <= x < 0x8000_0000 then Some(Char(m, x))
          else None
        case _ => None
  }

  /** In `u + [sep] + w`, where `u` is a formatted integer, the first separator after position 0 is `sep`. */
  lemma SplitAtSeparator(u: string, sep: char, w: string)
    requires |u| >= 1 && AllDigits(u[1..]) && IsSeparator(sep)
    ensures var s := u + [sep] + w;
      FindSeparator(s, 1) == |u| && s[..|u|] == u && s[|u|] == sep && s[|u| + 1..] == w
  {
    var s := u + [sep] + w;
    var j := FindSeparator(s, 1);
    assert s[|u|] == sep;
    assert s[..|u|] == u;
    assert s[|u| + 1..] == w;
  }

  lemma ParseKeyNameRoundTrip(k: CompositeKey)
    ensures ParseKeyName(KeyName(k)) == Some(k)
  {
    match k
    case Named(mod, key) =>
      assert KeyName(k) == Format(mod) + ['-'] + Format(key);
      SplitAtSeparator(Format(mod), '-', Format(key));
      FormatRoundTrip(mod);
      FormatRoundTrip(key);
    case Char(mod, ch) =>
      assert KeyName(k) == Format(mod) + [':'] + Format(ch);
      SplitAtSeparator(Format(mod), ':', Format(ch));
      FormatRoundTrip(mod);
      FormatRoundTrip(ch);
  }

  /** Two composite keys share a name exactly when they are the same key. */
  lemma KeyNameInjective(a: CompositeKey, b: CompositeKey)
    ensures KeyName(a) == KeyName(b) <==> a == b
  {
    ParseKeyNameRoundTrip(a);
    ParseKeyNameRoundTrip(b);
  }

  /** A named-key binding and a character binding never share a name, whatever their numbers. */
  lemma NamedAndRuneNamesDisjoint(mod: ModMask, key: Key, mod': ModMask, ch: Rune)
    ensures NamedKeyName(mod, key) != RuneKeyName(mod', ch)
  {
    KeyNameInjective(Named(mod, key), Char(mod', ch));
  }
}
