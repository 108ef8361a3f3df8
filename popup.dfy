/**
 * The settings popup: the shortcut form, its submit-time validation, the load at
 * start-up and the storage-change listener. Storage calls are not executed here: what
 * they return (or whether they fail) is an input of the operation that awaits them.
 */
module Popup {
  import opened Wrappers
  import opened Text
  import opened JsValues
  import opened Shortcut

  const ERROR_COLOR: string := "#b91c1c"
  const NORMAL_COLOR: string := "#1b2430"

  const MSG_MISSING_KEY: string := "Please enter a shortcut key."
  const MSG_BAD_KEY: string := "Use a letter or digit for the key."
  const MSG_SAVED: string := "Shortcut saved!"
  const MSG_SAVE_FAILED: string := "Failed to save shortcut."
  const MSG_READY: string := "Shortcut ready."
  const MSG_LOAD_FAILED: string := "Failed to load shortcut."
  const MSG_UPDATED: string := "Shortcut updated."

  /** A character of the class `[a-z0-9]`. */
  predicate IsLetterOrDigit(c: char) {
    'a' <= c <= 'z' || '0' <= c <= '9'
  }

  /** Why the submit handler refused the key field. */
  datatype KeyInputError = MissingKey | NotLetterOrDigit

  /** The two checks the submit handler makes on the key field, in order: a blank field
      is refused, then the first character of the trimmed, lower-cased field must be a
      letter or digit. */
  function NormalizeKeyInput(raw: string): (r: Result<string, KeyInputError>)
    ensures r == Err(MissingKey) <==> AllSpace(raw)
    ensures r.Ok? ==> |r.value| == 1 && IsLetterOrDigit(r.value[0])
  {
    TrimBlank(raw);
    if Trim(raw) == [] then Err(MissingKey)
    else
      var k := Lower(Trim(raw))[..1];
      if IsLetterOrDigit(k[0]) then Ok(k) else Err(NotLetterOrDigit)
  }

  /** The outcome depends only on the first visible character of the field. */
  lemma KeyInputFirstVisible(raw: string, i: nat)
    requires i < |raw| && !IsSpace(raw[i]) && AllSpace(raw[..i])
    ensures NormalizeKeyInput(raw) ==
      if IsLetterOrDigit(LowerChar(raw[i])) then Ok([LowerChar(raw[i])]) else Err(NotLetterOrDigit)
  {
    LeadingSpacesSpec(raw);
    TrimFirst(raw);
    TrimBlank(raw);
    forall j | 0 <= j < i ensures IsSpace(raw[j]) {
      assert raw[..i][j] == raw[j];
    }
    assert !AllSpace(raw);
    var t := Trim(raw);
    assert Lower(t)[..1] == [LowerChar(t[0])];
  }

  /** A key the form accepts is the key `sanitizeShortcut` would derive from the same
      text: the form and the sanitiser agree on every input the form lets through. */
  lemma AcceptedKeyIsSanitizedKey(raw: string)
    requires NormalizeKeyInput(raw).Ok?
    ensures Sanitize(Object(map["key" := Str(raw)])).key == NormalizeKeyInput(raw).value
  {
  }

  /** The config the submit handler builds from the form. With a key of one letter or
      digit it is well-formed, and `sanitizeShortcut` returns it unchanged when it is
      read back from storage. */
  function SubmittedConfig(ctrl: bool, alt: bool, shift: bool, meta: bool, key: string): (c: ShortcutConfig)
    ensures c.key == key && c.ctrl == ctrl && c.alt == alt && c.shift == shift && c.meta == meta
    ensures |key| == 1 && IsLetterOrDigit(key[0]) ==> WellFormed(c) && Sanitize(ToJs(c)) == c
  {
    var c := ShortcutConfig(ctrl, alt, shift, meta, key);
    if |key| == 1 && IsLetterOrDigit(key[0]) then
      SanitizeFixpoint(c);
      c
    else c
  }

  /** Every config the submit handler saves is one that `sanitizeShortcut` returns
      unchanged when either script reads it back. */
  lemma SubmittedConfigIsFixpoint(raw: string, ctrl: bool, alt: bool, shift: bool, meta: bool)
    requires NormalizeKeyInput(raw).Ok?
    ensures WellFormed(SubmittedConfig(ctrl, alt, shift, meta, NormalizeKeyInput(raw).value))
    ensures Sanitize(ToJs(SubmittedConfig(ctrl, alt, shift, meta, NormalizeKeyInput(raw).value))) ==
      SubmittedConfig(ctrl, alt, shift, meta, NormalizeKeyInput(raw).value)
  {
    var c := SubmittedConfig(ctrl, alt, shift, meta, NormalizeKeyInput(raw).value);
    assert WellFormed(c);
    SanitizeFixpoint(c);
  }

  /** The upper-cased key the form shows for a letter-or-digit gesture submits as that
      same key. */
  lemma ShownKeyResubmits(c: ShortcutConfig)
    requires WellFormed(c) && IsLetterOrDigit(c.key[0])
    ensures NormalizeKeyInput(Upper(c.key)) == Ok(c.key)
  {
    var shown := Upper(c.key);
    assert shown == [UpperChar(c.key[0])];
    CaseKeepsSpace(c.key[0]);
    assert LowerChar(UpperChar(c.key[0])) == c.key[0];
    KeyInputFirstVisible(shown, 0);
    assert [c.key[0]] == c.key;
  }

  /** A stored gesture whose key is no letter or digit (`sanitizeShortcut` accepts any
      visible character) is shown in the form but refused if submitted unchanged. */
  lemma ShownPunctuationIsRefused()
    ensures Sanitize(Object(map["key" := Str("!")])).key == "!"
    ensures NormalizeKeyInput(Upper("!")) == Err(NotLetterOrDigit)
  {
    KeyInputFirstVisible("!", 0);
    assert Upper("!") == "!";
  }

  /** The storage-change guard: the new gesture to show, when the change is to the
      "sync" area, touches the "shortcut" key and the new value is truthy. */
  function ShortcutChange(areaName: string, changes: map<string, StorageChange>): (r: Option<JsValue>)
    ensures r.Some? ==> Truthy(r.value)
    ensures r.None? <==>
      areaName != "sync" || SHORTCUT_STORAGE_KEY !in changes || !Truthy(changes[SHORTCUT_STORAGE_KEY].newValue)
    ensures r.Some? ==> r.value == changes[SHORTCUT_STORAGE_KEY].newValue
  {
    if areaName == "sync" && SHORTCUT_STORAGE_KEY in changes then
      var change := changes[SHORTCUT_STORAGE_KEY];
      if Truthy(change.newValue) then Some(change.newValue) else None
    else None
  }

  /** Removing the stored gesture leaves the popup's form alone. */
  lemma RemovalIsIgnored(oldValue: JsValue)
    ensures ShortcutChange("sync", map[SHORTCUT_STORAGE_KEY := StorageChange(oldValue, Undefined)]).None?
  {
  }

  /** What `chrome.storage.sync.get` produced: the items object, or a rejection. */
  datatype LoadResult = Loaded(items: JsValue) | LoadFailed

  /** The form controls and status line of the popup. */
  class ShortcutForm {
    var keyValue: string
    var ctrlChecked: bool
    var altChecked: bool
    var shiftChecked: bool
    var metaChecked: bool
    var status: string
    var statusColor: string
    var saveDisabled: bool

    /** The form displays `c`: its key upper-cased, each checkbox its modifier flag. */
    predicate Shows(c: ShortcutConfig)
      reads this
    {
      keyValue == Upper(c.key) && ctrlChecked == c.ctrl && altChecked == c.alt &&
      shiftChecked == c.shift && metaChecked == c.meta
    }

    /** The status line carries `message`, in the error colour exactly when `isError`. */
    predicate Says(message: string, isError: bool)
      reads this
    {
      status == message && statusColor == (if isError then ERROR_COLOR else NORMAL_COLOR)
    }

    constructor ()
      ensures keyValue == "" && !ctrlChecked && !altChecked && !shiftChecked && !metaChecked
      ensures status == "" && !saveDisabled
    {
      keyValue := "";
      ctrlChecked := false;
      altChecked := false;
      shiftChecked := false;
      metaChecked := false;
      status := "";
      statusColor := "";
      saveDisabled := false;
    }

    /** `setShortcutStatus`. */
    method SetShortcutStatus(message: string, isError: bool)
      modifies this
      ensures Says(message, isError)
      ensures keyValue == old(keyValue) && ctrlChecked == old(ctrlChecked) && altChecked == old(altChecked)
      ensures shiftChecked == old(shiftChecked) && metaChecked == old(metaChecked)
      ensures saveDisabled == old(saveDisabled)
    {
      status := message;
      statusColor := if isError then ERROR_COLOR else NORMAL_COLOR;
    }

    /** `applyShortcutToForm`. */
    method ApplyShortcutToForm(config: ShortcutConfig)
      modifies this
      ensures Shows(config)
      ensures status == old(status) && statusColor == old(statusColor) && saveDisabled == old(saveDisabled)
    {
      keyValue := Upper(config.key);
      ctrlChecked := config.ctrl;
      altChecked := config.alt;
      shiftChecked := config.shift;
      metaChecked := config.meta;
    }

    /** `loadShortcut`, given what the storage read produced. A failed read shows
        the default gesture and reports an error. */
    method LoadShortcut(result: LoadResult)
      modifies this
      ensures result.LoadFailed? ==> Shows(DEFAULT_SHORTCUT) && Says(MSG_LOAD_FAILED, true)
      ensures result.Loaded? ==>
        Shows(Sanitize(Get(result.items, SHORTCUT_STORAGE_KEY))) && Says(MSG_READY, false)
      ensures saveDisabled == old(saveDisabled)
    {
      if result.LoadFailed? {
        ApplyShortcutToForm(DEFAULT_SHORTCUT);
        SetShortcutStatus(MSG_LOAD_FAILED, true);
      } else {
        var config := Sanitize(Get(result.items, SHORTCUT_STORAGE_KEY));
        ApplyShortcutToForm(config);
        SetShortcutStatus(MSG_READY, false);
      }
    }

    /** The submit handler, given whether the storage write succeeds. It returns the
        config handed to the write, if it got that far. The form fields never change;
        the save button ends enabled. */
    method Submit(saveSucceeds: bool) returns (written: Option<ShortcutConfig>)
      modifies this
      ensures keyValue == old(keyValue) && ctrlChecked == old(ctrlChecked) && altChecked == old(altChecked)
      ensures shiftChecked == old(shiftChecked) && metaChecked == old(metaChecked)
      ensures old(NormalizeKeyInput(keyValue)) == Err(MissingKey) ==>
        written.None? && Says(MSG_MISSING_KEY, true) && saveDisabled == old(saveDisabled)
      ensures old(NormalizeKeyInput(keyValue)) == Err(NotLetterOrDigit) ==>
        written.None? && Says(MSG_BAD_KEY, true) && saveDisabled == old(saveDisabled)
      ensures old(NormalizeKeyInput(keyValue)).Ok? ==>
        written == Some(SubmittedConfig(ctrlChecked, altChecked, shiftChecked, metaChecked,
                                        old(NormalizeKeyInput(keyValue)).value)) &&
        !saveDisabled &&
        (if saveSucceeds then Says(MSG_SAVED, false) else Says(MSG_SAVE_FAILED, true))
    {
      if Trim(keyValue) == [] {
        SetShortcutStatus(MSG_MISSING_KEY, true);
        return None;
      }
      var normalizedKey := Lower(Trim(keyValue))[..1];
      if !IsLetterOrDigit(normalizedKey[0]) {
        SetShortcutStatus(MSG_BAD_KEY, true);
        return None;
      }
      var next := SubmittedConfig(ctrlChecked, altChecked, shiftChecked, metaChecked, normalizedKey);
      saveDisabled := true;
      SetShortcutStatus("Saving shortcut...", false);
      written := Some(next);
      if saveSucceeds {
        SetShortcutStatus(MSG_SAVED, false);
      } else {
        SetShortcutStatus(MSG_SAVE_FAILED, true);
      }
      saveDisabled := false;
    }

    /** The storage-change listener: the form shows the sanitised new gesture only when
        the guard lets the change through, and is otherwise left as it was. */
    method OnStorageChanged(changes: map<string, StorageChange>, areaName: string)
      modifies this
      ensures ShortcutChange(areaName, changes).Some? ==>
        Shows(Sanitize(ShortcutChange(areaName, changes).value)) && Says(MSG_UPDATED, false)
      ensures ShortcutChange(areaName, changes).None? ==>
        keyValue == old(keyValue) && ctrlChecked == old(ctrlChecked) && altChecked == old(altChecked) &&
        shiftChecked == old(shiftChecked) && metaChecked == old(metaChecked) &&
        status == old(status) && statusColor == old(statusColor)
      ensures saveDisabled == old(saveDisabled)
    {
      var change := ShortcutChange(areaName, changes);
      if change.Some? {
        ApplyShortcutToForm(Sanitize(change.value));
        SetShortcutStatus(MSG_UPDATED, false);
      }
    }
  }

  /** Showing a letter-or-digit gesture and submitting the form unchanged saves that
      gesture again. */
  method ShowThenSubmit(form: ShortcutForm, c: ShortcutConfig) returns (written: Option<ShortcutConfig>)
    requires WellFormed(c) && IsLetterOrDigit(c.key[0])
    modifies form
    ensures written == Some(c) && form.Says(MSG_SAVED, false)
  {
    form.ApplyShortcutToForm(c);
    ShownKeyResubmits(c);
    written := form.Submit(true);
  }
}
