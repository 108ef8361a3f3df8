/**
 * The 36-character shortcut alphabet: digits 1-9 and 0, then the letters a-z. The
 * target at position i of a discovery gets the i-th character as its glyph.
 */
module ShortcutKeys {
  import opened Wrappers
  import opened Text

  const SHORTCUT_KEYS: string := "1234567890abcdefghijklmnopqrstuvwxyz"

  /** The character at each position of the alphabet, by code point. */
  lemma KeyAt(i: nat)
    requires i < |SHORTCUT_KEYS|
    ensures SHORTCUT_KEYS[i] as int == if i < 9 then '1' as int + i else if i == 9 then '0' as int else 'a' as int + (i - 10)
  {
  }

  /** `SHORTCUT_KEYS[index]`: `undefined` past the end of the alphabet. A glyph is a
      lower-case letter or digit, and looking it up in the alphabet gives `index` back. */
  function Glyph(index: nat): (g: Option<char>)
    ensures g.Some? <==> index < 36
    ensures g.Some? ==> g.value == SHORTCUT_KEYS[index]
    ensures g.Some? ==> IndexOf(SHORTCUT_KEYS, [g.value]) == index
    ensures g.Some? ==> LowerChar(g.value) == g.value && ('a' <= g.value <= 'z' || '0' <= g.value <= '9')
  {
    if index < |SHORTCUT_KEYS| then
      GlyphPosition(index);
      KeysDistinct(index, index);
      Some(SHORTCUT_KEYS[index])
    else None
  }

  /** No character appears twice, and all are lower-case letters or digits. */
  lemma KeysDistinct(i: nat, j: nat)
    requires i < 36 && j < 36
    ensures SHORTCUT_KEYS[i] == SHORTCUT_KEYS[j] <==> i == j
    ensures LowerChar(SHORTCUT_KEYS[i]) == SHORTCUT_KEYS[i]
    ensures 'a' <= SHORTCUT_KEYS[i] <= 'z' || '0' <= SHORTCUT_KEYS[i] <= '9'
  {
    KeyAt(i);
    KeyAt(j);
  }

  /** Looking up a glyph in the alphabet gives back its position: the key shown on
      the i-th entry selects the i-th target. */
  lemma {:induction false} GlyphPosition(i: nat)
    requires i < 36
    ensures IndexOf(SHORTCUT_KEYS, [SHORTCUT_KEYS[i]]) == i
  {
    var r := IndexOf(SHORTCUT_KEYS, [SHORTCUT_KEYS[i]]);
    assert OccursAt(SHORTCUT_KEYS, [SHORTCUT_KEYS[i]], i);
    assert r != -1 && r <= i;
    assert SHORTCUT_KEYS[r..r + 1][0] == SHORTCUT_KEYS[r];
    KeysDistinct(r, i);
  }
}
