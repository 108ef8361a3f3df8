# QuickPress, modelled in Dafny

QuickPress is a browser extension. Its content script lets a user drive a page's
buttons and links from the keyboard. An activation gesture (ctrl+Q by default)
opens an overlay. The overlay lists every visible, enabled button, ARIA button and
linked anchor of the page. Each list entry shows a label and a one-character shortcut
glyph taken from the alphabet `1234567890abcdefghijklmnopqrstuvwxyz`. A search field
filters the entries. Typing a glyph, or clicking an entry, tears the overlay down and
then focuses and clicks the target. While the overlay is open, every target carries a
highlight class, and the focused entry's target also carries an active class. The
extension's popup is a settings form for the gesture. It validates the key and saves
the gesture to `chrome.storage.sync`. The content script reads it back through
`sanitizeShortcut`, which turns any stored value into a usable gesture.

The model has these modules, one per concern of the two scripts:

- `Wrappers`: `Option` and `Result`.
- `JsValues`: the untyped values `sanitizeShortcut` accepts, with JavaScript
  truthiness and `typeof … === "object"`.
- `Text`: `trim` over ECMAScript white space and line terminators, ASCII
  `toLowerCase`/`toUpperCase`, `indexOf`/`includes`, and decimal rendering.
- `Dom`: page elements (a class whose only mutable field is the class list), key
  events and `isTypingField`.
- `Shortcut`: the gesture record, `sanitizeShortcut` and `matchesShortcut`. Both scripts
  define `sanitizeShortcut` with the same expression (src/content.ts:146-164 and
  src/popup.ts:56-73), so it is modelled once.
- `ShortcutKeys`: the glyph alphabet.
- `Discovery`: `collectTargets`.
- `Render`: labels, glyphs, list entries and the filter test.
- `Dispatch`: the decision the document `keydown` listener takes for one event.
- `Session`: the module-level `state` of the content script, as a `Controller` class.
  Its methods are `resetHighlights`, `closeOverlay`, `executeButton`,
  `setActiveHighlight`, `openOverlay` with its `filterList` closure, `toggleOverlay`,
  the list-item key handler and the `keydown` listener.
- `Popup`: the popup's form, as a `ShortcutForm` class, with submit validation,
  loading and the storage-change listener.

The host page is an input sequence of `Element` objects in document order. Each call
of `focus()` or `click()` on a target is recorded in `Controller.hostCalls`, together
with whether the overlay was open at that moment. That record is how "teardown before
invoking the target" is stated. Storage reads and writes are not performed: what a
read returns, and whether a write succeeds, are parameters of the operation that
awaits them.

Behaviour of the code that the model keeps, and that contracts and lemmas state:

- `normalizedEventKey` lower-cases the key in both of its branches.
- While the overlay is open, the glyph test runs before the gesture test and ignores
  modifiers. With the default ctrl+Q and more than 26 targets, ctrl+Q therefore
  executes target 26 (glyph `q`) instead of closing, unless focus is in a typing field
  (`Dispatch.DefaultGestureCollidesWithGlyphQ`). The gesture still toggles while
  focus is in a typing field.
- `includes` and `indexOf` accept any substring of the alphabet, so a `keydown` whose
  `key` is the empty string executes the first target
  (`Dispatch.EmptyKeySelectsFirstTarget`).
- Closing removes both marks from every element that was highlighted. A target that
  already carried one of those classes before the overlay opened does not get it
  back.
- `sanitizeShortcut` accepts any visible first character as the key. The popup accepts
  only `[a-z0-9]`. A stored key such as `!` is shown in the form but refused if it is
  submitted unchanged (`Popup.ShownPunctuationIsRefused`).
- The two storage-change listeners differ. The popup ignores a change whose new value
  is falsy, for example a removal. The content script sanitises anyway, so a removal
  puts the default gesture back in force (`Session.Controller.OnStorageChanged`,
  `Popup.RemovalIsIgnored`).
- The listener only toggles the overlay. It never closes the overlay when discovery
  comes back empty, because `openOverlay` runs only while the overlay is closed.

## Model

| member | source | states |
|---|---|---|
| Text.LeadingSpacesSpec | src/content.ts:153 | the characters `trim` drops at the front are white space, and the first one it keeps is not |
| Text.TrailingSpacesSpec | src/content.ts:153 | the characters `trim` drops at the back are white space, and the last one it keeps is not |
| Text.TrimBlank | src/content.ts:153 | a trimmed string is empty exactly when the input is all white space |
| Text.TrimFirst | src/content.ts:154 | a non-empty trimmed string starts with the input's first visible character and has no white space at either end |
| Text.TrimLowerCommute | src/content.ts:361 | trimming and lower-casing commute, so the query normalisation does not depend on their order |
| Text.Trim | src/content.ts:153 | `trim` returns a contiguous piece of the input, and what it drops on either side is white space |
| Text.LowerIsLowercase | src/content.ts:177 | a lower-cased string has no capital letter, lower-cases to itself, and keeps the white space at both ends |
| Text.UpperThenLower | src/popup.ts:81 | an upper-cased string has no small letter, and lower-casing it gives the lower-cased input |
| Text.Includes | src/content.ts:366 | `includes` holds exactly when the substring occurs at some position |
| Text.IndexOfFrom | src/content.ts:407-409 | `indexOf` returns -1 or a position where the substring occurs, and the substring occurs at no earlier position |
| Text.NatToString | src/content.ts:299 | the rendering of a number is a non-empty string of decimal digits, with no leading zero, whose value is that number |
| Dom.IsTypingField | src/content.ts:216-227 | only HTML elements are typing fields; an editable one always is; a non-editable one is exactly when its lower-cased tag is input, textarea or select |
| Dom.TypingFieldIgnoresTagCase | src/content.ts:216-227 | two HTML elements alike in editability whose tags differ only in letter case are both typing fields or neither |
| Shortcut.Sanitize | src/content.ts:146-164 | always a well-formed gesture; the default for a falsy or non-object value; otherwise each modifier is the truthiness of its field |
| Shortcut.SanitizeStringKey | src/content.ts:152-155 | a blank string key gives "q"; otherwise the key is the lower-cased first visible character |
| Shortcut.SanitizeMissingKey | src/content.ts:152-155 | a key that is not a string gives "q" |
| Shortcut.SanitizeFixpoint | src/content.ts:146-164 | a well-formed gesture, stored as a plain object, sanitises to itself |
| Shortcut.SanitizeIdempotent | src/content.ts:146-164 | sanitising the stored form of a sanitised value changes nothing |
| Shortcut.NormalizedEventKey | src/content.ts:176-177 | both branches lower-case the key, so the result has the key's length and lower-cases to itself |
| Shortcut.Matches | src/content.ts:179-188 | a match needs all four modifier flags equal; against a well-formed gesture it needs a one-character key whose lower case is the gesture key |
| Shortcut.MatchesIgnoresCase | src/content.ts:176-188 | matching ignores the key's letter case, and only a one-character key whose lower case is the gesture key can match |
| ShortcutKeys.KeyAt | src/content.ts:7 | the alphabet is the digits 1 to 9, then 0, then a to z |
| ShortcutKeys.Glyph | src/content.ts:355 | there is a glyph exactly for positions below 36; it is a lower-case letter or digit, and `indexOf` finds it in the alphabet at that same position |
| ShortcutKeys.KeysDistinct | src/content.ts:7 | the 36 glyphs are pairwise distinct lower-case letters or digits |
| ShortcutKeys.GlyphPosition | src/content.ts:407-409 | `indexOf` of the i-th glyph in the alphabet is i |
| Discovery.QueryCandidatesMembers | src/content.ts:230-234 | the query returns exactly the page elements matching the selector, in document order |
| Discovery.KeepEligibleMembers | src/content.ts:236-241 | the filter keeps exactly the laid-out HTML elements that are not disabled buttons, in order |
| Discovery.CollectTargetsContents | src/content.ts:229-242 | the targets are exactly the page's elements that match the selector and pass the filter, as a subsequence of the query result and of the page |
| Discovery.TargetsAreEnabledAndVisible | src/content.ts:236-241 | no target is a disabled button or an element without an offset parent |
| Render.FallbackLabel | src/content.ts:299 | the fallback is "Element " followed by the digits of index + 1, without a leading zero |
| Render.FirstNonEmpty | src/content.ts:291-299 | a chain of logical-or on strings yields the first non-empty candidate, or the fallback when all are empty |
| Render.Label | src/content.ts:291-299 | every label is non-empty |
| Render.LabelIsFirstNonEmpty | src/content.ts:291-299 | the label is the first non-empty of trimmed text, aria-label, title, id and (anchors only) href, else "Element " followed by index + 1 |
| Render.MakeEntryShape | src/content.ts:279-322 | the item carries its index, starts shown, is labelled by the priority chain, searches by its label lower-cased, and shows its glyph, or "click" from position 36 on |
| Render.RenderEntriesShape | src/content.ts:354-358 | one entry per target, in order, each shown and carrying its position; glyphs of different entries differ, and entries from position 36 on show "click" |
| Render.EntryMatches | src/content.ts:360-369 | an entry is shown exactly when the query is blank or its trimmed, lower-cased form occurs in the entry's search key |
| Render.QueryMisses | src/content.ts:360-369 | a visible query whose normalised form is not in the search key hides the entry |
| Render.ZzzMisses | src/content.ts:360-369 | the query "zzz" hides every entry whose search key has no two adjacent z's |
| Render.FilterIgnoresQueryCase | src/content.ts:361 | lower-casing or upper-casing the query changes no entry's visibility |
| Render.FilterExampleSa | src/content.ts:360-369 | with labels Submit, Cancel and Save Draft, the query "sa" shows only Save Draft |
| Render.FilterExampleEmpty | src/content.ts:360-369 | the empty query shows all three |
| Render.FilterExampleNone | src/content.ts:360-369 | the query "zzz" shows none of the three |
| Dispatch.Decide | src/content.ts:390-424 | an Execute verdict needs an open overlay, an unhandled event, focus outside a typing field, and a key occurring in the alphabet at a position below the target count |
| Dispatch.PreventedIsIgnored | src/content.ts:393-395 | an event with `defaultPrevented` is ignored |
| Dispatch.EscapeAlwaysCloses | src/content.ts:397-403 | while open, Escape in any case closes, whatever the modifiers and the focus |
| Dispatch.TypingFieldSuppressesExecution | src/content.ts:405-421 | in a typing field no target is executed, and the gesture still toggles exactly when it matches |
| Dispatch.ClosedOnlyToggles | src/content.ts:418-421 | while closed, an unhandled event toggles exactly when it matches the gesture and is otherwise passed through |
| Dispatch.GlyphKeyExecutesItsTarget | src/content.ts:405-414 | while open, outside a typing field, the i-th glyph in either case executes target i when it exists |
| Dispatch.NoKeyBeyondAlphabet | src/content.ts:405-410 | no event executes a target at position 36 or beyond |
| Dispatch.DefaultGestureCollidesWithGlyphQ | src/content.ts:397-421 | with ctrl+Q while open and outside a typing field, target 26 is executed when there are more than 26 targets; otherwise the overlay toggles |
| Dispatch.EmptyKeySelectsFirstTarget | src/content.ts:405-414 | an event with an empty key executes target 0 while open and outside a typing field |
| Session.MoveActiveMark | src/content.ts:269-277 | the previous active element loses the active class and the new one gains it; no other class changes; if only the previous one carried the class, only the new one does |
| Session.MarkTargets | src/content.ts:331 | every target gains the highlight class and nothing else |
| Session.UnmarkTargets | src/content.ts:245-248 | every element loses both classes and nothing else |
| Session.BuildEntries | src/content.ts:354-358 | the list holds one entry per target, entry j built from target j at position j |
| Session.Controller.constructor | src/content.ts:199-207 | the script starts closed, with nothing highlighted, no active index and the default gesture |
| Session.Controller.ApplyShortcutConfig | src/content.ts:166-168 | the gesture becomes the sanitised value; nothing else changes |
| Session.Controller.LoadShortcutConfig | src/content.ts:170-174 | the gesture becomes the sanitised "shortcut" item of the read result |
| Session.Controller.OnStorageChanged | src/content.ts:192-197 | a "sync" change to "shortcut" sets the sanitised new value, so a falsy one sets the default; any other change leaves the gesture alone |
| Session.Controller.ResetHighlights | src/content.ts:244-251 | every highlighted element loses both classes; the list is emptied and the active index cleared |
| Session.Controller.CloseOverlay | src/content.ts:253-257 | the overlay is gone, nothing is highlighted, there is no active index, and no element that was highlighted keeps either class |
| Session.Controller.ExecuteButton | src/content.ts:259-267 | with no target at the index, nothing changes; otherwise the session is torn down, then the target is focused and clicked, both while the overlay is closed |
| Session.Controller.SetActiveHighlight | src/content.ts:269-277 | the active index becomes the argument; the active class moves from the old target to the new one; if only the active target was marked active before, that holds after, so at most one element is |
| Session.Controller.AgreeingMarksAreUnique | src/content.ts:269-277 | when only the active target carries the active class, at most one highlighted element does |
| Session.Controller.ItemKeyDown | src/content.ts:312-317 | Enter or Space on an entry executes its target and prevents the default; any other key changes nothing |
| Session.Controller.FilterList | src/content.ts:360-369 | every entry stays in place; each is shown exactly when it matches the query; nothing else changes |
| Session.Controller.OpenOverlay | src/content.ts:324-380 | with no targets the session stays torn down; otherwise the overlay lists the rendered targets, they are the highlighted list, and each gains the highlight class |
| Session.Controller.ToggleOverlay | src/content.ts:382-388 | an open overlay is closed; a closed one is opened on the current targets |
| Session.Controller.HandleKeyDown | src/content.ts:390-424 | the listener prevents the default exactly for the verdicts that call for it, and its effect is the one the verdict names |
| Session.ToggleTwiceFromClosed | src/content.ts:382-388 | two toggles on an unchanged page, starting closed, end closed with every target's classes less the two marks |
| Popup.NormalizeKeyInput | src/popup.ts:107-116 | a blank field is refused as missing; an accepted key is one letter or digit |
| Popup.KeyInputFirstVisible | src/popup.ts:112-116 | the outcome is decided by the lower-cased first visible character: accepted as that character when it is a letter or digit, refused otherwise |
| Popup.AcceptedKeyIsSanitizedKey | src/popup.ts:112-116 | an accepted key is the key `sanitizeShortcut` derives from the same text |
| Popup.SubmittedConfig | src/popup.ts:118-124 | the saved config carries the checkbox states and the key; with a one-character letter-or-digit key it is well-formed and sanitises to itself |
| Popup.SubmittedConfigIsFixpoint | src/popup.ts:118-124 | every config the form saves is well-formed and sanitises to itself |
| Popup.ShownKeyResubmits | src/popup.ts:80-86 | the upper-cased key shown for a letter-or-digit gesture is accepted as that same key |
| Popup.ShownPunctuationIsRefused | src/popup.ts:112-116 | a stored key "!" survives sanitising but is refused on resubmission |
| Popup.ShortcutChange | src/popup.ts:140-148 | a change passes the guard exactly when it is to "sync", touches "shortcut" and has a truthy new value, and then yields that value |
| Popup.RemovalIsIgnored | src/popup.ts:140-148 | removing the stored gesture does not pass the guard |
| Popup.ShortcutForm.SetShortcutStatus | src/popup.ts:75-78 | the status shows the message, red for errors and dark otherwise; the fields are unchanged |
| Popup.ShortcutForm.ApplyShortcutToForm | src/popup.ts:80-86 | the form shows the key upper-cased and each checkbox set to its modifier flag |
| Popup.ShortcutForm.LoadShortcut | src/popup.ts:88-99 | a failed read shows the default gesture with an error status; a successful one shows the sanitised stored gesture and "Shortcut ready." |
| Popup.ShortcutForm.Submit | src/popup.ts:105-138 | a blank key, then a key that is not a letter or digit, is refused with its error and nothing is written; otherwise the built config is written, the status reports the write's outcome, and the save button ends enabled |
| Popup.ShortcutForm.OnStorageChanged | src/popup.ts:140-148 | a change that passes the guard is shown sanitised with "Shortcut updated."; any other change leaves the form alone |
| Popup.ShowThenSubmit | src/popup.ts:80-124 | showing a letter-or-digit gesture and submitting the form unchanged writes that gesture back |

## Left out

- The CSS text and its injection into the page (src/content.ts:32-144): presentation only.
- `chrome.runtime` and `chrome.tabs` messaging, including the HIGHLIGHT body-class toggle and the popup's highlight button: browser I/O unrelated to the overlay.
- `chrome.storage` calls: a read becomes its result (`LoadShortcutConfig`, `LoadShortcut`), a write becomes the returned config and a success flag (`Submit`), and a change notification becomes the listener's arguments.
- Construction of the overlay's DOM tree, listener registration and the deferred `requestAnimationFrame` focus of the search field: only the resulting entries, labels, glyphs and visibility are modelled.
- The click, focus and blur listeners of a list item call `executeButton(index)`, `setActiveHighlight(index)` and `setActiveHighlight(null)` directly; they are those methods, with no model of their own.
- The intermediate state of an asynchronous submit ("Saving shortcut..." with the save button disabled) is not observable in the model. `Submit` runs to completion and states the final state.
- Text.Lower: maps only ASCII letters, because full Unicode case mapping is out of scope. Characters such as the Kelvin sign or a Turkish dotted capital I lower-case differently in a browser.
- Text.Upper: maps only ASCII letters, for the same reason.
- Shortcut.Sanitize: strings are sequences of Unicode code points, while `length` and `slice(0, 1)` count UTF-16 code units. Outside the Basic Multilingual Plane they differ: a stored key such as an emoji stays one whole character here, but a browser keeps a lone surrogate.
- Popup.NormalizeKeyInput: takes the first code point for the same reason, where the browser's `slice(0, 1)` takes the first UTF-16 code unit.
- JsValues.Get: reads only an object's own fields; inherited properties and properties of arrays and functions read as `undefined`.
- Numbers are reals, so the infinities and negative zero are not distinguished (all three have the truthiness the model gives them).
- Session.Controller.OpenOverlay: requires the overlay to be closed, because its only caller, `toggleOverlay`, calls it only then. The code's behaviour when it is called while open is not modelled.
- `HTMLElement.focus()` and `click()` on a target run host-page code the model cannot see. They are recorded as `HostCall` entries, and their effects are not modelled.
- Elements are the ones present when an operation starts. A page that changes during a session, for example one that removes a highlighted element, is not modelled.
