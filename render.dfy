/**
 * The data the overlay shows: one list entry per target, with its label, its
 * lower-cased search key, its shortcut glyph and whether the search filter shows it.
 */
module Render {
  import opened Wrappers
  import opened Text
  import opened Dom
  import opened ShortcutKeys

  /** `getAttribute` as a truthy string: an absent attribute reads as "". */
  function AttrText(a: Option<string>): string {
    if a.Some? then a.value else ""
  }

  /** The candidates `createListItem` tries, in order, before the positional fallback. */
  function LabelCandidates(e: Element): seq<string> {
    [Trim(e.innerText), AttrText(e.ariaLabel), AttrText(e.title), e.id,
     if IsHtmlAnchor(e) then AttrText(e.href) else ""]
  }

  /** `Element ${index + 1}`: the word, a space, then the decimal digits of `index + 1`
      with no leading zero. */
  function FallbackLabel(index: nat): (r: string)
    ensures |r| > 8 && r[..8] == "Element "
    ensures var d := r[8..];
      (forall i :: 0 <= i < |d| ==> '0' <= d[i] <= '9') && DigitsValue(d) == index + 1 && (|d| > 1 ==> d[0] != '0')
  {
    var d := NatToString(index + 1);
    var r := "Element " + d;
    assert r[8..] == d;
    r
  }

  /** A chain of `||`: the first non-empty candidate, else the fallback. */
  function FirstNonEmpty(candidates: seq<string>, fallback: string): (r: string)
    ensures (forall k :: 0 <= k < |candidates| ==> candidates[k] == []) ==> r == fallback
    ensures forall k :: 0 <= k < |candidates| && candidates[k] != [] && (forall j :: 0 <= j < k ==> candidates[j] == []) ==>
      r == candidates[k]
  {
    if candidates == [] then fallback
    else if candidates[0] != [] then candidates[0]
    else FirstNonEmpty(candidates[1..], fallback)
  }

  /** The label expression of `createListItem`. */
  function Label(e: Element, index: nat): (r: string)
    ensures |r| > 0
  {
    var text := Trim(e.innerText);
    if text != [] then text
    else if AttrText(e.ariaLabel) != [] then AttrText(e.ariaLabel)
    else if AttrText(e.title) != [] then AttrText(e.title)
    else if e.id != [] then e.id
    else if IsHtmlAnchor(e) && AttrText(e.href) != [] then AttrText(e.href)
    else FallbackLabel(index)
  }

  /** The label is the first non-empty of visible text, aria-label, title, id and (for
      anchors) href, and "Element N" (N counted from 1) when all are empty. */
  lemma LabelIsFirstNonEmpty(e: Element, index: nat)
    ensures Label(e, index) == FirstNonEmpty(LabelCandidates(e), FallbackLabel(index))
  {
    var c := LabelCandidates(e);
    var f := FallbackLabel(index);
    var c4 := [c[4]];
    var c3 := [c[3]] + c4;
    var c2 := [c[2]] + c3;
    var c1 := [c[1]] + c2;
    assert c == [c[0]] + c1 && c1[1..] == c2 && c2[1..] == c3 && c3[1..] == c4 && c4[1..] == [];
    assert FirstNonEmpty(c4, f) == if c[4] != [] then c[4] else f;
    assert FirstNonEmpty(c3, f) == if c[3] != [] then c[3] else FirstNonEmpty(c4, f);
    assert FirstNonEmpty(c2, f) == if c[2] != [] then c[2] else FirstNonEmpty(c3, f);
    assert FirstNonEmpty(c1, f) == if c[1] != [] then c[1] else FirstNonEmpty(c2, f);
  }

  /** One list item: `data-index`, the label text, `data-label` (lower-cased) and the glyph. */
  datatype Entry = Entry(index: nat, text: string, searchKey: string, shortcut: Option<char>, visible: bool)

  /** The list item `createListItem` builds for the target at `index`. */
  function MakeEntry(e: Element, index: nat): Entry {
    var text := Label(e, index);
    Entry(index, text, Lower(text), Glyph(index), true)
  }

  /** The item for the target at `index` carries that index, is shown, has the label
      found by the priority chain, searches by that label lower-cased, and shows the
      index's glyph, or "click" past the 36th. */
  lemma MakeEntryShape(e: Element, index: nat)
    ensures var r := MakeEntry(e, index);
      r.index == index && r.visible &&
      r.text == FirstNonEmpty(LabelCandidates(e), FallbackLabel(index)) && |r.text| > 0 &&
      r.searchKey == Lower(r.text) &&
      BadgeText(r) == if index < 36 then [SHORTCUT_KEYS[index]] else "click"
  {
    LabelIsFirstNonEmpty(e, index);
  }

  /** The text of the shortcut badge. */
  function BadgeText(entry: Entry): string {
    if entry.shortcut.Some? then [entry.shortcut.value] else "click"
  }

  /** The list `openOverlay` builds: one entry per target, in order. */
  function RenderEntries(targets: seq<Element>): seq<Entry> {
    seq(|targets|, i requires 0 <= i < |targets| => MakeEntry(targets[i], i))
  }

  /** The list has one entry per target, in order, all shown, each carrying its
      position; the first 36 carry pairwise different glyphs and the rest show "click". */
  lemma RenderEntriesShape(targets: seq<Element>)
    ensures var r := RenderEntries(targets);
      |r| == |targets| &&
      (forall i :: 0 <= i < |r| ==> r[i].index == i && r[i].visible && r[i].searchKey == Lower(r[i].text)) &&
      (forall i, j :: 0 <= i < |r| && 0 <= j < |r| && i != j && r[i].shortcut.Some? ==> r[i].shortcut != r[j].shortcut) &&
      (forall i :: 36 <= i < |r| ==> BadgeText(r[i]) == "click")
  {
    var r := RenderEntries(targets);
    forall i | 0 <= i < |r| ensures r[i].index == i && r[i].visible && r[i].shortcut == Glyph(i) {
      MakeEntryShape(targets[i], i);
    }
  }

  /** The query as `filterList` normalises it. */
  function NormalizeQuery(query: string): string {
    Lower(Trim(query))
  }

  /** `filterList`'s test for one item: shown exactly when the query is blank or its
      normalised form occurs in the item's search key. */
  predicate EntryMatches(query: string, searchKey: string): (b: bool)
    ensures b <==> AllSpace(query) || exists i :: OccursAt(searchKey, NormalizeQuery(query), i)
  {
    TrimBlank(query);
    var normalized := NormalizeQuery(query);
    normalized == [] || Includes(searchKey, normalized)
  }

  /** The filter ignores the letter case of the query. */
  lemma FilterIgnoresQueryCase(query: string, searchKey: string)
    ensures EntryMatches(Lower(query), searchKey) == EntryMatches(query, searchKey)
    ensures EntryMatches(Upper(query), searchKey) == EntryMatches(query, searchKey)
  {
    TrimLowerCommute(query);
    TrimLowerCommute(Upper(query));
    UpperThenLower(query);
    LowerIsLowercase(Trim(query));
  }

  lemma LowerExampleLabels()
    ensures Lower("Submit") == "submit" && Lower("Cancel") == "cancel" && Lower("Save Draft") == "save draft"
  {
    assert Lower("Submit") == "submit";
    assert Lower("Cancel") == "cancel";
    assert Lower("Save Draft") == "save draft";
  }

  /** Labels "Submit", "Cancel" and "Save Draft": "sa" shows only the third. */
  lemma FilterExampleSa()
    ensures !EntryMatches("sa", Lower("Submit")) && !EntryMatches("sa", Lower("Cancel"))
    ensures EntryMatches("sa", Lower("Save Draft"))
  {
    LowerExampleLabels();
    TrimVisibleEnds("sa");
    assert Lower("sa") == "sa";
    assert OccursAt("save draft", "sa", 0);
    NoOccurrence("submit", "sa");
    NoOccurrence("cancel", "sa");
    QueryMisses("sa", "submit");
    QueryMisses("sa", "cancel");
  }

  /** The empty query shows every entry. */
  lemma FilterExampleEmpty()
    ensures EntryMatches("", Lower("Submit")) && EntryMatches("", Lower("Cancel")) && EntryMatches("", Lower("Save Draft"))
  {
    assert NormalizeQuery("") == "";
  }

  /** "zzz" shows none of the three. */
  lemma FilterExampleNone()
    ensures !EntryMatches("zzz", Lower("Submit"))
    ensures !EntryMatches("zzz", Lower("Cancel"))
    ensures !EntryMatches("zzz", Lower("Save Draft"))
  {
    LowerExampleLabels();
    ZzzHidesExampleKeys();
  }

  lemma ZzzHidesExampleKeys()
    ensures !EntryMatches("zzz", "submit") && !EntryMatches("zzz", "cancel") && !EntryMatches("zzz", "save draft")
  {
    ZzzMisses("submit");
    ZzzMisses("cancel");
    ZzzMisses("save draft");
  }

  /** "zzz" hides every entry whose search key has no two adjacent z's. */
  lemma ZzzMisses(searchKey: string)
    requires forall i :: 0 <= i < |searchKey| - 1 ==> searchKey[i] != 'z' || searchKey[i + 1] != 'z'
    ensures !EntryMatches("zzz", searchKey)
  {
    TrimVisibleEnds("zzz");
    assert Lower("zzz") == "zzz";
    NoOccurrence(searchKey, "zzz");
    QueryMisses("zzz", searchKey);
  }

  /** A visible query whose normalised form is not in the search key hides the entry. */
  lemma QueryMisses(query: string, searchKey: string)
    requires NormalizeQuery(query) != [] && !Includes(searchKey, NormalizeQuery(query))
    ensures !EntryMatches(query, searchKey)
  {
  }

  /** A word whose first two letters never stand side by side in `s` does not occur in it. */
  lemma NoOccurrence(s: string, w: string)
    requires |w| >= 2 && forall i :: 0 <= i < |s| - 1 ==> s[i] != w[0] || s[i + 1] != w[1]
    ensures !Includes(s, w)
  {
    forall i | 0 <= i && i + |w| <= |s| ensures !OccursAt(s, w, i) {
      assert s[i..i + |w|][0] == s[i] && s[i..i + |w|][1] == s[i + 1];
    }
  }
}
