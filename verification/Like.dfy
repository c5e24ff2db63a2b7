/**
 * `ILIKE` as section 9.7.1 of the PostgreSQL documentation defines LIKE, with letter case folded
 * character by character, and the escaping that turns a search text into a prefix pattern.
 */
module Like {

  type Fold = char -> char

  const ESCAPE := '\\'
  const MANY := '%'
  const ONE := '_'

  predicate ILike(fold: Fold, value: string, pattern: string)
    decreases |value| + |pattern|
  {
    if pattern == "" then value == ""
    else if pattern[0] == MANY then
      ILike(fold, value, pattern[1..]) || (value != "" && ILike(fold, value[1..], pattern))
    else if pattern[0] == ONE then
      value != "" && ILike(fold, value[1..], pattern[1..])
    else if pattern[0] == ESCAPE && |pattern| > 1 then
      value != "" && fold(value[0]) == fold(pattern[1]) && ILike(fold, value[1..], pattern[2..])
    else
      value != "" && fold(value[0]) == fold(pattern[0]) && ILike(fold, value[1..], pattern[1..])
  }

  function EscapeLike(text: string): string {
    if text == "" then ""
    else if text[0] in {ESCAPE, MANY, ONE} then [ESCAPE, text[0]] + EscapeLike(text[1..])
    else [text[0]] + EscapeLike(text[1..])
  }

  predicate FoldedPrefix(fold: Fold, text: string, value: string) {
    |text| <= |value| && forall i | 0 <= i < |text| :: fold(text[i]) == fold(value[i])
  }

  lemma {:induction false} ManyMatchesAll(fold: Fold, value: string)
    ensures ILike(fold, value, [MANY])
  {
    if value != "" {
      ManyMatchesAll(fold, value[1..]);
    } else {
      assert [MANY][1..] == "";
    }
  }

  /** A search for `text` finds exactly the values that begin with it, wildcards and all. */
  lemma {:induction false} EscapedPrefix(fold: Fold, text: string, value: string)
    ensures ILike(fold, value, EscapeLike(text) + [MANY]) <==> FoldedPrefix(fold, text, value)
  {
    if text == "" {
      assert EscapeLike(text) + [MANY] == [MANY];
      ManyMatchesAll(fold, value);
    } else {
      var rest := EscapeLike(text[1..]) + [MANY];
      var p := EscapeLike(text) + [MANY];
      if text[0] in {ESCAPE, MANY, ONE} {
        assert p == [ESCAPE, text[0]] + rest;
        assert p[2..] == rest;
      } else {
        assert p == [text[0]] + rest;
        assert p[1..] == rest;
      }
      if value != "" {
        EscapedPrefix(fold, text[1..], value[1..]);
        PrefixStep(fold, text, value);
      }
    }
  }

  lemma PrefixStep(fold: Fold, text: string, value: string)
    requires text != "" && value != ""
    ensures FoldedPrefix(fold, text, value)
        <==> fold(text[0]) == fold(value[0]) && FoldedPrefix(fold, text[1..], value[1..])
  {
    var t, v := text[1..], value[1..];
    if fold(text[0]) == fold(value[0]) && FoldedPrefix(fold, t, v) {
      forall i | 0 <= i < |text| ensures fold(text[i]) == fold(value[i]) {
        if i > 0 { assert fold(t[i - 1]) == fold(v[i - 1]); }
      }
    }
  }
}
