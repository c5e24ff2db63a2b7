/** Splitting, joining and trimming text, as the query parameters need them. */
module Strings {

  function Split(s: string, sep: char): (parts: seq<string>)
    ensures parts != []
    ensures forall p | p in parts :: sep !in p
  {
    if s == "" then [""]
    else
      var rest := Split(s[1..], sep);
      if s[0] == sep then [""] + rest else [[s[0]] + rest[0]] + rest[1..]
  }

  function Join(parts: seq<string>, sep: char): string {
    if parts == [] then ""
    else if |parts| == 1 then parts[0]
    else parts[0] + [sep] + Join(parts[1..], sep)
  }

  /** Splitting undoes joining, as long as no part holds the separator. */
  lemma {:induction false} SplitJoin(parts: seq<string>, sep: char)
    requires parts != [] && forall p | p in parts :: sep !in p
    ensures Split(Join(parts, sep), sep) == parts
  {
    if |parts| == 1 {
      SplitPlain(parts[0], sep);
    } else {
      SplitJoin(parts[1..], sep);
      SplitHead(parts[0], Join(parts[1..], sep), sep);
      assert parts[0] + [sep] + Join(parts[1..], sep) == parts[0] + ([sep] + Join(parts[1..], sep));
    }
  }

  lemma {:induction false} SplitPlain(s: string, sep: char)
    requires sep !in s
    ensures Split(s, sep) == [s]
  {
    if s != "" {
      SplitPlain(s[1..], sep);
      assert [s[0]] + s[1..] == s;
    }
  }

  lemma {:induction false} SplitHead(s: string, t: string, sep: char)
    requires sep !in s
    ensures Split(s + ([sep] + t), sep) == [s] + Split(t, sep)
  {
    if s == "" {
      assert s + ([sep] + t) == [sep] + t;
      assert ([sep] + t)[1..] == t;
    } else {
      SplitHead(s[1..], t, sep);
      assert [s[0]] + s[1..] == s;
      assert (s + ([sep] + t))[1..] == s[1..] + ([sep] + t);
    }
  }

  /** The last part is what comes after the last separator. */
  lemma {:induction false} SplitLast(s: string, t: string, sep: char)
    requires sep !in t
    ensures var parts := Split(s + [sep] + t, sep); parts[|parts| - 1] == t
  {
    var whole := s + [sep] + t;
    if s == "" {
      assert whole[1..] == t;
      SplitPlain(t, sep);
    } else {
      assert whole[1..] == s[1..] + [sep] + t;
      SplitLast(s[1..], t, sep);
      if s[0] != sep && |Split(whole[1..], sep)| == 1 {
        assert whole[1..][|s| - 1] == sep;
        OnePart(whole[1..], sep);
      }
    }
  }

  lemma {:induction false} OnePart(s: string, sep: char)
    requires |Split(s, sep)| == 1
    ensures sep !in s
  {
    if s != "" {
      OnePart(s[1..], sep);
    }
  }

  /** The characters `String.prototype.trim` removes. */
  predicate Blank(c: char) {
    || c in {' ', '\t', '\n', '\r', '\U{000B}', '\U{000C}', '\U{00A0}', '\U{FEFF}'}
    || c in {'\U{1680}', '\U{2028}', '\U{2029}', '\U{202F}', '\U{205F}', '\U{3000}'}
    || '\U{2000}' <= c <= '\U{200A}'
  }

  function TrimStart(s: string): string {
    if s != "" && Blank(s[0]) then TrimStart(s[1..]) else s
  }

  function TrimEnd(s: string): string {
    if s != "" && Blank(s[|s| - 1]) then TrimEnd(s[..|s| - 1]) else s
  }

  function Trim(s: string): string {
    TrimEnd(TrimStart(s))
  }

  lemma {:induction false} TrimStartBare(s: string)
    ensures TrimStart(s) != "" ==> !Blank(TrimStart(s)[0])
    ensures forall c | c in TrimStart(s) :: c in s
  {
    if s != "" && Blank(s[0]) { TrimStartBare(s[1..]); }
  }

  lemma {:induction false} TrimEndBare(s: string)
    ensures TrimEnd(s) <= s
    ensures TrimEnd(s) != "" ==> !Blank(TrimEnd(s)[|TrimEnd(s)| - 1])
  {
    if s != "" && Blank(s[|s| - 1]) { TrimEndBare(s[..|s| - 1]); }
  }

  /** Trimmed text stays as it is when trimmed again, and has no new characters. */
  lemma TrimTwice(s: string)
    ensures Trim(Trim(s)) == Trim(s)
    ensures forall c | c in Trim(s) :: c in s
  {
    TrimStartBare(s);
    TrimEndBare(TrimStart(s));
    forall c | c in Trim(s) ensures c in s { assert c in TrimStart(s); }
  }

  /**
   * White space and line ends of ECMAScript (sections 12.2 and 12.3 of ECMA-262), by code point: tab to
   * carriage return, space, no-break space, the byte order mark, the two separators, and the Unicode spaces.
   */
  predicate White(n: int) {
    || 9 <= n <= 13 || n == 32 || n == 160 || n == 0xFEFF || n == 0x2028 || n == 0x2029
    || n == 0x1680 || 0x2000 <= n <= 0x200A || n == 0x202F || n == 0x205F || n == 0x3000
  }

  predicate AllWhite(s: string) {
    forall c | c in s :: White(c as int)
  }

  predicate BareEnds(s: string) {
    s != "" ==> !White(s[0] as int) && !White(s[|s| - 1] as int)
  }

  lemma BlankIsWhite()
    ensures forall c :: Blank(c) <==> White(c as int)
  {
  }

  lemma {:induction false} TrimStartOf(a: string, s: string)
    requires AllWhite(a) && (s != "" ==> !White(s[0] as int))
    ensures TrimStart(a + s) == s
  {
    BlankIsWhite();
    hide Blank, White;
    if a == "" {
      assert a + s == s;
    } else {
      assert a[0] in a && (a + s)[1..] == a[1..] + s;
      assert forall c | c in a[1..] :: c in a;
      TrimStartOf(a[1..], s);
    }
  }

  lemma {:induction false} TrimEndOf(s: string, b: string)
    requires AllWhite(b) && (s != "" ==> !White(s[|s| - 1] as int))
    ensures TrimEnd(s + b) == s
  {
    BlankIsWhite();
    hide Blank, White;
    if b == "" {
      assert s + b == s;
    } else {
      var init := b[..|b| - 1];
      assert b[|b| - 1] in b && (s + b)[..|s + b| - 1] == s + init;
      assert forall c | c in init :: c in b;
      TrimEndOf(s, init);
    }
  }

  /** Trimming takes off the white space at both ends, all of it and nothing else. */
  lemma TrimExactly(before: string, t: string, after: string)
    requires AllWhite(before) && AllWhite(after) && BareEnds(t)
    ensures Trim(before + t + after) == t
  {
    hide White;
    if t == "" {
      TrimStartOf(before + after, "");
      assert before + t + after == before + after + "";
    } else {
      TrimStartOf(before, t + after);
      assert before + t + after == before + (t + after);
      TrimEndOf(t, after);
    }
  }

  function TrimAll(parts: seq<string>): (trimmed: seq<string>)
    ensures |trimmed| == |parts|
    ensures forall i | 0 <= i < |parts| :: trimmed[i] == Trim(parts[i])
  {
    seq(|parts|, i requires 0 <= i < |parts| => Trim(parts[i]))
  }

  /** The elements that are in `keep`, in order. */
  function Filter(parts: seq<string>, keep: string -> bool): (kept: seq<string>)
    ensures forall p :: p in kept <==> p in parts && keep(p)
    ensures |kept| <= |parts|
  {
    if parts == [] then []
    else (if keep(parts[0]) then [parts[0]] else []) + Filter(parts[1..], keep)
  }

  lemma {:induction false} FilterAll(parts: seq<string>, keep: string -> bool)
    requires forall p | p in parts :: keep(p)
    ensures Filter(parts, keep) == parts
  {
    if parts != [] {
      FilterAll(parts[1..], keep);
    }
  }

  /** Of two filters, the narrower one alone gives the same. */
  lemma {:induction false} FilterTwice(parts: seq<string>, wide: string -> bool, narrow: string -> bool)
    requires forall s | narrow(s) :: wide(s)
    ensures Filter(Filter(parts, wide), narrow) == Filter(parts, narrow)
  {
    if parts != [] {
      FilterTwice(parts[1..], wide, narrow);
      var rest := Filter(parts[1..], wide);
      if wide(parts[0]) { assert ([parts[0]] + rest)[1..] == rest; } else { assert [] + rest == rest && [] + Filter(parts[1..], narrow) == Filter(parts[1..], narrow); }
    }
  }

  lemma {:induction false} FilterNone(parts: seq<string>, keep: string -> bool)
    requires forall p | p in parts :: !keep(p)
    ensures Filter(parts, keep) == []
  {
    if parts != [] {
      assert !keep(parts[0]);
      FilterNone(parts[1..], keep);
    }
  }
}
