/**
 * The overlay session of the content script: the module-level `state` (overlay,
 * highlighted targets, active index), the current gesture, and the operations that
 * open, filter and close the overlay, execute a target and dispatch key events.
 */
module Session {
  import opened Wrappers
  import opened Text
  import opened JsValues
  import opened Dom
  import opened Shortcut
  import opened ShortcutKeys
  import opened Discovery
  import opened Render
  import opened Dispatch

  const BUTTON_HIGHLIGHT_CLASS: string := "quickpress-button-highlight"
  const BUTTON_ACTIVE_CLASS: string := "quickpress-button-highlight-active"

  /** The overlay while it is in the document: its list entries, in target order. */
  datatype OverlayView = OverlayView(entries: seq<Entry>)

  /** A call into the host page, with whether the overlay was open when it was made. */
  datatype HostCall = Focus(target: Element, overlayOpen: bool) | Click(target: Element, overlayOpen: bool)

  /** Every element of `prev` lost both marks and nothing else. */
  twostate predicate MarksCleared(prev: seq<Element>)
    reads prev
  {
    forall j :: 0 <= j < |prev| ==>
      prev[j].classes == old(prev[j].classes) - {BUTTON_HIGHLIGHT_CLASS, BUTTON_ACTIVE_CLASS}
  }

  /** Every element of `targets` gained the highlight mark and nothing else. */
  twostate predicate MarksAdded(targets: seq<Element>)
    reads targets
  {
    forall j :: 0 <= j < |targets| ==> targets[j].classes == old(targets[j].classes) + {BUTTON_HIGHLIGHT_CLASS}
  }

  twostate predicate ClassesUnchanged(es: seq<Element>)
    reads es
  {
    forall j :: 0 <= j < |es| ==> es[j].classes == old(es[j].classes)
  }

  /** The entries show the targets, one per target in order, whatever the filter hides. */
  predicate RendersTargets(entries: seq<Entry>, targets: seq<Element>) {
    AllShown(entries) == RenderEntries(targets)
  }

  /** The entries with the filter lifted. */
  function AllShown(entries: seq<Entry>): (r: seq<Entry>)
    ensures |r| == |entries| && forall i :: 0 <= i < |r| ==> r[i] == entries[i].(visible := true)
  {
    seq(|entries|, i requires 0 <= i < |entries| => entries[i].(visible := true))
  }

  /** Entries that differ at most in visibility look the same with the filter lifted. */
  lemma ShownIgnoresVisibility(a: seq<Entry>, b: seq<Entry>)
    requires |a| == |b| && forall i :: 0 <= i < |a| ==> a[i].(visible := true) == b[i].(visible := true)
    ensures AllShown(a) == AllShown(b)
  {
  }

  /** The active mark moved from `prev` to `next` among `elems`: `next` gained it, `prev`
      (when it is not also `next`) lost it, and no other class of any element changed. */
  twostate predicate ActiveMoved(elems: seq<Element>, prev: Option<Element>, next: Option<Element>)
    reads elems
  {
    forall j :: 0 <= j < |elems| ==>
      elems[j].classes ==
        if Some(elems[j]) == next then old(elems[j].classes) + {BUTTON_ACTIVE_CLASS}
        else if Some(elems[j]) == prev then old(elems[j].classes) - {BUTTON_ACTIVE_CLASS}
        else old(elems[j].classes)
  }

  /** Every element of `elems` carries the highlight mark. */
  ghost predicate AllMarked(elems: seq<Element>)
    reads elems
  {
    forall i :: 0 <= i < |elems| ==> BUTTON_HIGHLIGHT_CLASS in elems[i].classes
  }

  /** No element of `elems` but `active` carries the active mark. */
  ghost predicate OnlyActiveMarked(elems: seq<Element>, active: Option<Element>)
    reads elems
  {
    forall j :: 0 <= j < |elems| && BUTTON_ACTIVE_CLASS in elems[j].classes ==> active == Some(elems[j])
  }

  /** The element at `index` of `elems`, when `index` designates one. */
  function At(elems: seq<Element>, index: Option<int>): (r: Option<Element>)
    ensures r.Some? <==> index.Some? && 0 <= index.value < |elems|
    ensures r.Some? ==> r.value == elems[index.value]
  {
    if index.Some? && 0 <= index.value < |elems| then Some(elems[index.value]) else None
  }

  /** The two optional-chained class updates of `setActiveHighlight`. */
  method MoveActiveMark(elems: seq<Element>, prev: Option<int>, next: Option<int>)
    modifies elems
    ensures ActiveMoved(elems, At(elems, prev), At(elems, next))
    ensures old(OnlyActiveMarked(elems, At(elems, prev))) ==> OnlyActiveMarked(elems, At(elems, next))
    ensures old(AllMarked(elems)) ==> AllMarked(elems)
  {
    if prev.Some? && 0 <= prev.value < |elems| {
      var previous := elems[prev.value];
      previous.classes := previous.classes - {BUTTON_ACTIVE_CLASS};
    }
    if next.Some? && 0 <= next.value < |elems| {
      var target := elems[next.value];
      target.classes := target.classes + {BUTTON_ACTIVE_CLASS};
    }
  }

  /** The `forEach` of `openOverlay` that marks each target. */
  method MarkTargets(buttons: seq<Element>)
    modifies buttons
    ensures MarksAdded(buttons)
  {
    var i := 0;
    while i < |buttons|
      invariant 0 <= i <= |buttons|
      invariant forall j :: 0 <= j < i ==> buttons[j].classes == old(buttons[j].classes) + {BUTTON_HIGHLIGHT_CLASS}
      invariant forall j :: i <= j < |buttons| && buttons[j] !in buttons[..i] ==>
        buttons[j].classes == old(buttons[j].classes)
    {
      var btn := buttons[i];
      btn.classes := btn.classes + {BUTTON_HIGHLIGHT_CLASS};
      i := i + 1;
    }
  }

  /** The `forEach` of `resetHighlights` that strips both marks. */
  method UnmarkTargets(buttons: seq<Element>)
    modifies buttons
    ensures MarksCleared(buttons)
  {
    var i := 0;
    while i < |buttons|
      invariant 0 <= i <= |buttons|
      invariant forall j :: 0 <= j < i ==>
        buttons[j].classes == old(buttons[j].classes) - {BUTTON_HIGHLIGHT_CLASS, BUTTON_ACTIVE_CLASS}
      invariant forall j :: i <= j < |buttons| && buttons[j] !in buttons[..i] ==>
        buttons[j].classes == old(buttons[j].classes)
    {
      var btn := buttons[i];
      btn.classes := btn.classes - {BUTTON_HIGHLIGHT_CLASS};
      btn.classes := btn.classes - {BUTTON_ACTIVE_CLASS};
      i := i + 1;
    }
  }

  /** The `forEach` of `openOverlay` that creates one list item per target, kept as the
      data each item carries. */
  method BuildEntries(buttons: seq<Element>) returns (entries: seq<Entry>)
    ensures |entries| == |buttons|
    ensures forall j :: 0 <= j < |buttons| ==> entries[j] == MakeEntry(buttons[j], j)
  {
    entries := [];
    var k := 0;
    while k < |buttons|
      invariant 0 <= k <= |buttons| && |entries| == k
      invariant forall j :: 0 <= j < k ==> entries[j] == MakeEntry(buttons[j], j)
    {
      entries := entries + [MakeEntry(buttons[k], k)];
      k := k + 1;
    }
  }

  class Controller {
    var overlay: Option<OverlayView>
    var highlighted: seq<Element>
    var activeIndex: Option<int>
    /** `shortcutConfig`. */
    var shortcut: ShortcutConfig
    /** The `focus` and `click` calls made on targets so far. */
    var hostCalls: seq<HostCall>

    /** The session invariant: a closed overlay has no highlighted targets; an open one
        lists exactly the highlighted targets; every highlighted target is marked. */
    ghost predicate Valid()
      reads this, highlighted
    {
      WellFormed(shortcut) &&
      (overlay.None? ==> highlighted == []) &&
      (overlay.Some? ==> highlighted != [] && RendersTargets(overlay.value.entries, highlighted)) &&
      AllMarked(highlighted)
    }

    /** The state the content script starts in. */
    constructor ()
      ensures Valid() && overlay.None? && highlighted == [] && activeIndex.None?
      ensures shortcut == DEFAULT_SHORTCUT && hostCalls == []
    {
      overlay := None;
      highlighted := [];
      activeIndex := None;
      shortcut := DEFAULT_SHORTCUT;
      hostCalls := [];
    }

    /** `applyShortcutConfig`. */
    method ApplyShortcutConfig(value: JsValue)
      requires Valid()
      modifies this
      ensures Valid() && shortcut == Sanitize(value)
      ensures overlay == old(overlay) && highlighted == old(highlighted)
      ensures activeIndex == old(activeIndex) && hostCalls == old(hostCalls)
    {
      shortcut := Sanitize(value);
    }

    /** The callback of `loadShortcutConfig`, given the items the storage read produced. */
    method LoadShortcutConfig(items: JsValue)
      requires Valid()
      modifies this
      ensures Valid() && shortcut == Sanitize(Get(items, SHORTCUT_STORAGE_KEY))
      ensures overlay == old(overlay) && highlighted == old(highlighted)
      ensures activeIndex == old(activeIndex) && hostCalls == old(hostCalls)
    {
      ApplyShortcutConfig(Get(items, SHORTCUT_STORAGE_KEY));
    }

    /** The content script's storage-change listener. Unlike the popup's, it does not
        test the new value: a removed gesture puts the default back in force. */
    method OnStorageChanged(changes: map<string, StorageChange>, areaName: string)
      requires Valid()
      modifies this
      ensures Valid()
      ensures areaName == "sync" && SHORTCUT_STORAGE_KEY in changes ==>
        shortcut == Sanitize(changes[SHORTCUT_STORAGE_KEY].newValue)
      ensures areaName == "sync" && SHORTCUT_STORAGE_KEY in changes && !Truthy(changes[SHORTCUT_STORAGE_KEY].newValue)
        ==> shortcut == DEFAULT_SHORTCUT
      ensures !(areaName == "sync" && SHORTCUT_STORAGE_KEY in changes) ==> shortcut == old(shortcut)
      ensures overlay == old(overlay) && highlighted == old(highlighted)
      ensures activeIndex == old(activeIndex) && hostCalls == old(hostCalls)
    {
      if areaName == "sync" && SHORTCUT_STORAGE_KEY in changes {
        ApplyShortcutConfig(changes[SHORTCUT_STORAGE_KEY].newValue);
      }
    }

    /** The highlighted target the active index designates, if any. */
    function ActiveTarget(): Option<Element>
      reads this
    {
      At(highlighted, activeIndex)
    }

    /** Only the active target carries the active mark. */
    ghost predicate ActiveMarksAgree()
      reads this, highlighted
    {
      OnlyActiveMarked(highlighted, ActiveTarget())
    }

    ghost predicate AtMostOneActive()
      reads this, highlighted
    {
      forall i, j ::
        0 <= i < |highlighted| && 0 <= j < |highlighted| &&
        BUTTON_ACTIVE_CLASS in highlighted[i].classes && BUTTON_ACTIVE_CLASS in highlighted[j].classes
        ==> highlighted[i] == highlighted[j]
    }

    /** When only the active target is marked active, at most one element is. */
    lemma AgreeingMarksAreUnique()
      requires ActiveMarksAgree()
      ensures AtMostOneActive()
    {
      forall i, j |
        0 <= i < |highlighted| && 0 <= j < |highlighted| &&
        BUTTON_ACTIVE_CLASS in highlighted[i].classes && BUTTON_ACTIVE_CLASS in highlighted[j].classes
        ensures highlighted[i] == highlighted[j]
      {
        assert ActiveTarget() == Some(highlighted[i]) && ActiveTarget() == Some(highlighted[j]);
      }
    }

    /** The session ended: overlay gone, nothing highlighted, no active index, and every
        element of `prev` stripped of both marks. */
    twostate predicate TornDown(prev: seq<Element>)
      reads this, prev
    {
      overlay.None? && highlighted == [] && activeIndex.None? && MarksCleared(prev)
    }

    /** The outcome of opening on `targets`: nothing when there are none, otherwise the
        overlay lists them, they are highlighted and marked. */
    twostate predicate OpenedOn(targets: seq<Element>)
      reads this, targets
    {
      if targets == [] then overlay.None? && highlighted == [] && activeIndex.None?
      else
        overlay == Some(OverlayView(RenderEntries(targets))) && highlighted == targets &&
        activeIndex == old(activeIndex) && MarksAdded(targets)
    }

    /** `resetHighlights`. */
    method ResetHighlights()
      modifies this, highlighted
      ensures highlighted == [] && activeIndex.None?
      ensures overlay == old(overlay) && shortcut == old(shortcut) && hostCalls == old(hostCalls)
      ensures MarksCleared(old(highlighted))
    {
      UnmarkTargets(highlighted);
      highlighted := [];
      activeIndex := None;
    }

    /** `closeOverlay`: never fails, and leaves no mark on any element it highlighted. */
    method CloseOverlay()
      requires Valid()
      modifies this, highlighted
      ensures Valid() && TornDown(old(highlighted))
      ensures shortcut == old(shortcut) && hostCalls == old(hostCalls)
    {
      ResetHighlights();
      overlay := None;
    }

    /** `executeButton`: a no-op for an index with no target; otherwise the session is
        torn down before the target is focused and then clicked. */
    method ExecuteButton(index: int)
      requires Valid()
      modifies this, highlighted
      ensures Valid() && shortcut == old(shortcut)
      ensures !(0 <= index < |old(highlighted)|) ==>
        overlay == old(overlay) && highlighted == old(highlighted) && activeIndex == old(activeIndex) &&
        hostCalls == old(hostCalls) && ClassesUnchanged(old(highlighted))
      ensures 0 <= index < |old(highlighted)| ==>
        TornDown(old(highlighted)) &&
        hostCalls == old(hostCalls) + [Focus(old(highlighted)[index], false), Click(old(highlighted)[index], false)]
    {
      if !(0 <= index < |highlighted|) {
        return;
      }
      var target := highlighted[index];
      CloseOverlay();
      hostCalls := hostCalls + [Focus(target, overlay.Some?)];
      hostCalls := hostCalls + [Click(target, overlay.Some?)];
    }

    /** `setActiveHighlight`: the previously active target loses the active mark, then the
        new one gains it. */
    method SetActiveHighlight(index: Option<int>)
      requires Valid()
      modifies this, highlighted
      ensures Valid() && activeIndex == index
      ensures overlay == old(overlay) && highlighted == old(highlighted)
      ensures shortcut == old(shortcut) && hostCalls == old(hostCalls)
      ensures ActiveMoved(highlighted, old(ActiveTarget()), ActiveTarget())
      ensures old(ActiveMarksAgree()) ==> ActiveMarksAgree() && AtMostOneActive()
    {
      MoveActiveMark(highlighted, activeIndex, index);
      activeIndex := index;
      if old(ActiveMarksAgree()) {
        AgreeingMarksAreUnique();
      }
    }

    /** The `keydown` listener of a list item: Enter or Space executes its target and
        calls `preventDefault`; any other key does nothing. */
    method ItemKeyDown(key: string, index: nat) returns (prevented: bool)
      requires Valid()
      modifies this, highlighted
      ensures Valid() && shortcut == old(shortcut)
      ensures prevented <==> key == "Enter" || key == " "
      ensures !prevented ==>
        overlay == old(overlay) && highlighted == old(highlighted) && activeIndex == old(activeIndex) &&
        hostCalls == old(hostCalls) && ClassesUnchanged(old(highlighted))
      ensures prevented && index < |old(highlighted)| ==>
        TornDown(old(highlighted)) &&
        hostCalls == old(hostCalls) + [Focus(old(highlighted)[index], false), Click(old(highlighted)[index], false)]
    {
      prevented := key == "Enter" || key == " ";
      if prevented {
        ExecuteButton(index);
      }
    }

    /** `filterList`: every entry stays in the list; it is shown exactly when it matches
        the query. With the overlay closed there is no list to filter. */
    method FilterList(query: string)
      requires Valid()
      modifies this
      ensures Valid()
      ensures highlighted == old(highlighted) && activeIndex == old(activeIndex)
      ensures shortcut == old(shortcut) && hostCalls == old(hostCalls)
      ensures old(overlay).None? ==> overlay.None?
      ensures old(overlay).Some? ==>
        overlay.Some? && |overlay.value.entries| == |old(overlay).value.entries| &&
        forall i :: 0 <= i < |overlay.value.entries| ==>
          overlay.value.entries[i] ==
            old(overlay).value.entries[i].(visible := EntryMatches(query, old(overlay).value.entries[i].searchKey))
    {
      if overlay.None? {
        return;
      }
      var normalized := NormalizeQuery(query);
      var entries := overlay.value.entries;
      var items := entries;
      var i := 0;
      while i < |items|
        invariant 0 <= i <= |items| == |entries|
        invariant forall j :: 0 <= j < i ==> items[j] == entries[j].(visible := EntryMatches(query, entries[j].searchKey))
        invariant forall j :: i <= j < |items| ==> items[j] == entries[j]
      {
        var matches := normalized == [] || Includes(items[i].searchKey, normalized);
        assert matches == EntryMatches(query, entries[i].searchKey);
        items := items[i := items[i].(visible := matches)];
        i := i + 1;
      }
      ShownIgnoresVisibility(items, entries);
      overlay := Some(OverlayView(items));
    }

    /** `openOverlay`, called only while the overlay is closed. */
    method OpenOverlay(page: seq<Element>)
      requires Valid() && overlay.None?
      modifies this, CollectTargets(page)
      ensures Valid() && OpenedOn(CollectTargets(page))
      ensures shortcut == old(shortcut) && hostCalls == old(hostCalls)
    {
      var buttons := CollectTargets(page);
      if |buttons| == 0 {
        CloseOverlay();
        return;
      }
      MarkTargets(buttons);
      highlighted := buttons;
      var entries := BuildEntries(buttons);
      assert entries == RenderEntries(buttons);
      overlay := Some(OverlayView(entries));
    }

    /** `toggleOverlay`. */
    method ToggleOverlay(page: seq<Element>)
      requires Valid()
      modifies this, highlighted, if overlay.Some? then [] else CollectTargets(page)
      ensures Valid() && shortcut == old(shortcut) && hostCalls == old(hostCalls)
      ensures old(overlay).Some? ==> TornDown(old(highlighted))
      ensures old(overlay).None? ==> OpenedOn(CollectTargets(page))
    {
      if overlay.Some? {
        CloseOverlay();
      } else {
        OpenOverlay(page);
      }
    }

    /** What carrying out verdict `v` does, from a state that highlighted `prev`. */
    twostate predicate Performed(v: Verdict, prev: seq<Element>, page: seq<Element>)
      requires v.Execute? ==> v.index < |prev|
      reads this, prev, CollectTargets(page)
    {
      match v
      case Ignored | PassThrough =>
        overlay == old(overlay) && highlighted == old(highlighted) && activeIndex == old(activeIndex) &&
        hostCalls == old(hostCalls) && ClassesUnchanged(prev) && ClassesUnchanged(CollectTargets(page))
      case CloseOnEscape =>
        TornDown(prev) && hostCalls == old(hostCalls)
      case Execute(i) =>
        TornDown(prev) && hostCalls == old(hostCalls) + [Focus(prev[i], false), Click(prev[i], false)]
      case Toggle =>
        hostCalls == old(hostCalls) &&
        if old(overlay).Some? then TornDown(prev) else OpenedOn(CollectTargets(page))
    }

    /** The capturing `keydown` listener. It returns whether it called `preventDefault`. */
    method HandleKeyDown(ev: KeyEvent, page: seq<Element>) returns (prevented: bool)
      requires Valid()
      modifies this, highlighted, if overlay.Some? then [] else CollectTargets(page)
      ensures Valid() && shortcut == old(shortcut)
      ensures prevented == Decide(ev, old(overlay).Some?, |old(highlighted)|, old(shortcut)).PreventsDefault()
      ensures Performed(Decide(ev, old(overlay).Some?, |old(highlighted)|, old(shortcut)), old(highlighted), page)
    {
      if ev.defaultPrevented {
        return false;
      }
      if overlay.Some? {
        var key := Lower(ev.key);
        if key == "escape" {
          CloseOverlay();
          return true;
        }
        if !IsTypingField(ev.target) && Includes(SHORTCUT_KEYS, key) {
          var index := IndexOf(SHORTCUT_KEYS, key);
          if index > -1 && index < |highlighted| {
            ExecuteButton(index);
            return true;
          }
        }
      }
      if Matches(ev, shortcut) {
        ToggleOverlay(page);
        return true;
      }
      return false;
    }
  }

  /** Two toggles on an unchanged page, starting closed, end closed with every target's
      classes as they were, less the two marks. */
  method ToggleTwiceFromClosed(c: Controller, page: seq<Element>)
    requires c.Valid() && c.overlay.None?
    modifies c, CollectTargets(page)
    ensures c.Valid() && c.overlay.None? && c.highlighted == [] && c.activeIndex.None?
    ensures MarksCleared(CollectTargets(page))
  {
    c.ToggleOverlay(page);
    c.ToggleOverlay(page);
  }
}
