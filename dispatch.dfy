/**
 * The decision the document-level `keydown` listener takes for one event, given
 * whether the overlay is open, how many targets are highlighted and the current
 * gesture. `Session.Controller.HandleKeyDown` carries the decision out.
 */
module Dispatch {
  import opened Text
  import opened Dom
  import opened Shortcut
  import opened ShortcutKeys

  datatype Verdict =
    | Ignored            // the page already called preventDefault
    | CloseOnEscape      // Escape while the overlay is open
    | Execute(index: nat) // an alphabet key selecting a highlighted target
    | Toggle             // the activation gesture
    | PassThrough        // none of the above: the event is left alone
  {
    /** The listener calls `preventDefault` exactly for these. */
    predicate PreventsDefault() {
      CloseOnEscape? || Execute? || Toggle?
    }
  }

  /** The listener's checks, in the order it makes them. */
  function Decide(ev: KeyEvent, open: bool, count: nat, config: ShortcutConfig): (v: Verdict)
    ensures v.Execute? ==>
              open && !ev.defaultPrevented && !IsTypingField(ev.target) &&
              v.index < count && v.index < |SHORTCUT_KEYS| && OccursAt(SHORTCUT_KEYS, Lower(ev.key), v.index)
  {
    if ev.defaultPrevented then Ignored
    else
      var key := Lower(ev.key);
      if open && key == "escape" then CloseOnEscape
      else if open && !IsTypingField(ev.target) && Includes(SHORTCUT_KEYS, key)
              && IndexOf(SHORTCUT_KEYS, key) > -1 && IndexOf(SHORTCUT_KEYS, key) < count
      then Execute(IndexOf(SHORTCUT_KEYS, key))
      else if Matches(ev, config) then Toggle
      else PassThrough
  }

  /** An event the page has already handled is ignored entirely. */
  lemma PreventedIsIgnored(ev: KeyEvent, open: bool, count: nat, config: ShortcutConfig)
    requires ev.defaultPrevented
    ensures Decide(ev, open, count, config) == Ignored
  {
  }

  /** While the overlay is open, Escape (in any letter case, with any modifiers, in any
      field) closes it. */
  lemma EscapeAlwaysCloses(ev: KeyEvent, count: nat, config: ShortcutConfig)
    requires !ev.defaultPrevented && Lower(ev.key) == "escape"
    ensures Decide(ev, true, count, config) == CloseOnEscape
  {
  }

  /** In a typing field the alphabet keys never execute a target; Escape and the
      gesture still work. */
  lemma TypingFieldSuppressesExecution(ev: KeyEvent, open: bool, count: nat, config: ShortcutConfig)
    requires IsTypingField(ev.target)
    ensures !Decide(ev, open, count, config).Execute?
    ensures !ev.defaultPrevented && !(open && Lower(ev.key) == "escape") ==>
      (Decide(ev, open, count, config) == Toggle <==> Matches(ev, config))
  {
  }

  /** While closed, an unhandled event toggles exactly when it matches the gesture. */
  lemma ClosedOnlyToggles(ev: KeyEvent, count: nat, config: ShortcutConfig)
    requires !ev.defaultPrevented
    ensures Decide(ev, false, count, config) == if Matches(ev, config) then Toggle else PassThrough
  {
  }

  /** The glyph on entry i (typed in either letter case, with any modifiers) executes
      target i when focus is outside a typing field. */
  lemma GlyphKeyExecutesItsTarget(ev: KeyEvent, count: nat, config: ShortcutConfig, i: nat)
    requires !ev.defaultPrevented && !IsTypingField(ev.target)
    requires i < count && i < |SHORTCUT_KEYS| && Lower(ev.key) == [SHORTCUT_KEYS[i]]
    ensures Decide(ev, true, count, config) == Execute(i)
  {
    GlyphPosition(i);
  }

  /** Targets from position 36 on have no key: no event executes them. */
  lemma NoKeyBeyondAlphabet(ev: KeyEvent, open: bool, count: nat, config: ShortcutConfig)
    ensures Decide(ev, open, count, config).Execute? ==> Decide(ev, open, count, config).index < 36
  {
  }

  /** With the default gesture ctrl+Q, the overlay open and focus outside a typing
      field, ctrl+Q executes target 26 (the glyph "q") when there are more than 26
      targets, and closes the overlay otherwise. */
  lemma DefaultGestureCollidesWithGlyphQ(ev: KeyEvent, count: nat)
    requires ev == KeyEvent("q", true, false, false, false, false, ev.target)
    requires !IsTypingField(ev.target)
    ensures count > 26 ==> Decide(ev, true, count, DEFAULT_SHORTCUT) == Execute(26)
    ensures count <= 26 ==> Decide(ev, true, count, DEFAULT_SHORTCUT) == Toggle
  {
    assert SHORTCUT_KEYS[26] == 'q';
    assert Lower("q") == "q";
    GlyphPosition(26);
  }

  /** `includes` and `indexOf` accept any substring of the alphabet: an event whose key
      is the empty string selects the first target. */
  lemma EmptyKeySelectsFirstTarget(ev: KeyEvent, count: nat, config: ShortcutConfig)
    requires ev.key == "" && !ev.defaultPrevented && !IsTypingField(ev.target) && count > 0
    ensures Decide(ev, true, count, config) == Execute(0)
  {
    assert OccursAt(SHORTCUT_KEYS, "", 0);
  }
}
