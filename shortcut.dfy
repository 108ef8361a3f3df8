/**
 * The shortcut config resolver: turning whatever is stored under "shortcut" into an
 * activation gesture, and matching key events against that gesture.
 */
module Shortcut {
  import opened Text
  import opened JsValues
  import opened Dom

  datatype ShortcutConfig = ShortcutConfig(ctrl: bool, alt: bool, shift: bool, meta: bool, key: string)

  /** The storage key both scripts read and write the gesture under. */
  const SHORTCUT_STORAGE_KEY: string := "shortcut"

  /** One entry of the `changes` object a storage-change listener receives; a value
      that was removed or never set is `Undefined`. */
  datatype StorageChange = StorageChange(oldValue: JsValue, newValue: JsValue)

  /** ctrl+Q. */
  const DEFAULT_SHORTCUT: ShortcutConfig := ShortcutConfig(true, false, false, false, "q")

  /** The shape every resolved gesture has: a key of exactly one visible character
      that lower-casing leaves unchanged. */
  predicate WellFormed(c: ShortcutConfig) {
    |c.key| == 1 && LowerChar(c.key[0]) == c.key[0] && !IsSpace(c.key[0])
  }

  /** `sanitizeShortcut`. */
  function Sanitize(value: JsValue): (r: ShortcutConfig)
    ensures WellFormed(r)
    ensures !(Truthy(value) && IsObjectType(value)) ==> r == DEFAULT_SHORTCUT
    ensures Truthy(value) && IsObjectType(value) ==>
      r.ctrl == Truthy(Get(value, "ctrl")) && r.alt == Truthy(Get(value, "alt")) &&
      r.shift == Truthy(Get(value, "shift")) && r.meta == Truthy(Get(value, "meta"))
  {
    if !Truthy(value) || !IsObjectType(value) then DEFAULT_SHORTCUT
    else
      var candidate := Get(value, "key");
      var trimmedKey :=
        if candidate.Str? && |Trim(candidate.s)| > 0
        then Lower(Trim(candidate.s))[..1]
        else DEFAULT_SHORTCUT.key;
      TrimFirst(if candidate.Str? then candidate.s else "");
      ShortcutConfig(
        Truthy(Get(value, "ctrl")), Truthy(Get(value, "alt")),
        Truthy(Get(value, "shift")), Truthy(Get(value, "meta")),
        trimmedKey)
  }

  /** The key of an object with a string `key` is the first visible character of that
      string, lower-cased; a blank string gives the default key. */
  lemma SanitizeStringKey(value: JsValue, s: string)
    requires Truthy(value) && IsObjectType(value) && Get(value, "key") == Str(s)
    ensures AllSpace(s) ==> Sanitize(value).key == "q"
    ensures forall k :: 0 <= k < |s| && !IsSpace(s[k]) && AllSpace(s[..k]) ==>
      Sanitize(value).key == [LowerChar(s[k])]
  {
    TrimBlank(s);
    TrimFirst(s);
    LeadingSpacesSpec(s);
    forall k | 0 <= k < |s| && !IsSpace(s[k]) && AllSpace(s[..k])
      ensures Sanitize(value).key == [LowerChar(s[k])]
    {
      forall j | 0 <= j < k ensures IsSpace(s[j]) {
        assert s[..k][j] == s[j];
      }
      assert LeadingSpaces(s) == k;
      assert Lower(Trim(s))[..1] == [LowerChar(s[k])];
    }
  }

  /** Without a string `key` the default key is used. */
  lemma SanitizeMissingKey(value: JsValue)
    requires !Get(value, "key").Str?
    ensures Sanitize(value).key == "q"
  {
  }

  /** The stored form of a config: a plain object with the five fields. */
  function ToJs(c: ShortcutConfig): JsValue {
    Object(map["ctrl" := Bool(c.ctrl), "alt" := Bool(c.alt), "shift" := Bool(c.shift),
               "meta" := Bool(c.meta), "key" := Str(c.key)])
  }

  /** A well-formed config survives storage and sanitising unchanged. */
  lemma SanitizeFixpoint(c: ShortcutConfig)
    requires WellFormed(c)
    ensures Sanitize(ToJs(c)) == c
  {
    var v := ToJs(c);
    assert Get(v, "key") == Str(c.key);
    assert c.key == [c.key[0]];
    TrimVisibleEnds(c.key);
  }

  /** Sanitising is idempotent. */
  lemma SanitizeIdempotent(value: JsValue)
    ensures Sanitize(ToJs(Sanitize(value))) == Sanitize(value)
  {
    SanitizeFixpoint(Sanitize(value));
  }

  /** `normalizedEventKey`: its two branches agree, so it lower-cases every key, and
      a normalised key normalises to itself. */
  function NormalizedEventKey(key: string): (r: string)
    ensures r == Lower(key)
    ensures |r| == |key| && forall i :: 0 <= i < |r| ==> LowerChar(r[i]) == r[i]
  {
    if |key| == 1 then Lower(key) else Lower(key)
  }

  /** `matchesShortcut`: all four modifier flags equal and the lower-cased key equal.
      Against a well-formed gesture only a one-character key can match. */
  predicate Matches(ev: KeyEvent, config: ShortcutConfig): (b: bool)
    ensures b ==> ev.ctrlKey == config.ctrl && ev.altKey == config.alt
    ensures b ==> ev.shiftKey == config.shift && ev.metaKey == config.meta
    ensures b && WellFormed(config) ==> |ev.key| == 1 && LowerChar(ev.key[0]) == config.key[0]
  {
    ev.ctrlKey == config.ctrl && ev.altKey == config.alt &&
    ev.shiftKey == config.shift && ev.metaKey == config.meta &&
    NormalizedEventKey(ev.key) == config.key
  }

  /** Against a well-formed gesture, matching ignores the letter case of the key and
      accepts only single-character keys. */
  lemma MatchesIgnoresCase(ev: KeyEvent, config: ShortcutConfig)
    requires WellFormed(config)
    ensures Matches(ev, config) == Matches(ev.(key := Lower(ev.key)), config)
    ensures Matches(ev, config) ==> |ev.key| == 1 && LowerChar(ev.key[0]) == config.key[0]
  {
    LowerIsLowercase(ev.key);
  }
}
