/**
 * The comment stripper of the package contract: a character loop, proved to be a segment grammar of
 * code characters, quoted strings, line comments and block comments with the comments left out.
 */
module Lexer {
  import opened Wrappers

  predicate IsQuote(c: char) {
    c in {'"', '\'', '`'}
  }

  // --- the grammar -------------------------------------------------------------------------------

  /** A string or a block comment that is not closed runs to the end of the source. */
  datatype Segment =
    | Code(c: char)
    | Quoted(quote: char, body: string, closed: bool)
    | LineComment(text: string)
    | BlockComment(text: string, closed: bool)

  /** A segment as it is written. */
  function Spelled(g: Segment): string {
    match g
    case Code(c) => [c]
    case Quoted(q, body, closed) => [q] + (body + Closing(q, closed))
    case LineComment(text) => "//" + text
    case BlockComment(text, closed) => "/*" + (text + BlockClosing(closed))
  }

  function Closing(q: char, closed: bool): string {
    if closed then [q] else ""
  }

  function BlockClosing(closed: bool): string {
    if closed then "*/" else ""
  }

  /** What is left of a segment: comments vanish, strings lose their contents when asked to. */
  function Left(g: Segment, dropStrings: bool): string {
    match g
    case Code(c) => [c]
    case Quoted(q, body, closed) => [q] + ((if dropStrings then "" else body) + Closing(q, closed))
    case LineComment(_) => ""
    case BlockComment(_, _) => ""
  }

  function SpelledAll(gs: seq<Segment>): string {
    if gs == [] then "" else Spelled(gs[0]) + SpelledAll(gs[1..])
  }

  function LeftAll(gs: seq<Segment>, dropStrings: bool): string {
    if gs == [] then "" else Left(gs[0], dropStrings) + LeftAll(gs[1..], dropStrings)
  }

  /** A string's contents: an escape takes the next character with it; a lone one only at the end. */
  predicate Contents(body: string, q: char, closed: bool) {
    if body == "" then true
    else if body[0] != '\\' then body[0] != q && Contents(body[1..], q, closed)
    else if |body| == 1 then !closed
    else Contents(body[2..], q, closed)
  }

  predicate StartsComment(s: string) {
    |s| >= 2 && s[0] == '/' && s[1] in {'/', '*'}
  }

  predicate EndsHere(s: string, k: nat) {
    k + 1 < |s| && s[k] == '*' && s[k + 1] == '/'
  }

  /** A block comment's contents: the end mark does not come before the end. */
  predicate BlockText(text: string, closed: bool) {
    var all := text + BlockClosing(closed);
    forall k | 0 <= k < |text| :: !EndsHere(all, k)
  }

  /** A segment may stand at the head of what is left of the source, before `rest`. */
  predicate Fits(g: Segment, rest: string) {
    match g
    case Code(c) => c != '"' && c != '\'' && c != '`' && !StartsComment([c] + rest)
    case Quoted(q, body, closed) => (q == '"' || q == '\'' || q == '`') && Contents(body, q, closed) && (closed || rest == "")
    case LineComment(text) => '\n' !in text && (rest == "" || rest[0] == '\n')
    case BlockComment(text, closed) => BlockText(text, closed) && (closed || rest == "")
  }

  predicate Splits(s: string, gs: seq<Segment>)
    decreases |gs|
  {
    if gs == [] then s == ""
    else
      var rest := SpelledAll(gs[1..]);
      s == Spelled(gs[0]) + rest && Fits(gs[0], rest) && Splits(rest, gs[1..])
  }

  // --- the same thing one character at a time ----------------------------------------------------

  function AfterLine(s: string): (rest: string)
    ensures |rest| <= |s|
  {
    if s == "" || s[0] == '\n' then s else AfterLine(s[1..])
  }

  function AfterBlock(s: string): (rest: string)
    ensures |rest| <= |s|
  {
    if s == "" then "" else if EndsHere(s, 0) then s[2..] else AfterBlock(s[1..])
  }

  /** A backslash and the character after it, if there is one. */
  function Pair(s: string): string
    requires s != ""
  {
    if |s| == 1 then s else s[..2]
  }

  datatype Step = Step(out: string, quote: Option<char>, rest: string)

  /** One turn of the loop: what is emitted, which string is open afterwards, and what is left to read. */
  function StepOf(s: string, quote: Option<char>, dropStrings: bool): (t: Step)
    requires s != ""
    ensures |t.rest| < |s|
  {
    if quote.Some? then
      if s[0] == '\\' then Step(if dropStrings then "" else Pair(s), quote, s[|Pair(s)|..])
      else if s[0] == quote.value then Step([s[0]], None, s[1..])
      else Step(if dropStrings then "" else [s[0]], quote, s[1..])
    else if IsQuote(s[0]) then Step([s[0]], Some(s[0]), s[1..])
    else if StartsComment(s) then Step("", None, if s[1] == '/' then AfterLine(s[2..]) else AfterBlock(s[2..]))
    else Step([s[0]], None, s[1..])
  }

  /** What the stripper still emits for `s`, inside the string opened by `quote` or outside any. */
  function Strip(s: string, quote: Option<char>, dropStrings: bool): string
    decreases |s|
  {
    if s == "" then ""
    else
      var t := StepOf(s, quote, dropStrings);
      t.out + Strip(t.rest, t.quote, dropStrings)
  }

  lemma StripStep(s: string, quote: Option<char>, dropStrings: bool)
    requires s != ""
    ensures var t := StepOf(s, quote, dropStrings);
      Strip(s, quote, dropStrings) == t.out + Strip(t.rest, t.quote, dropStrings)
  {
  }

  // --- the two agree -----------------------------------------------------------------------------

  lemma {:induction false} StripContents(body: string, q: char, closed: bool, rest: string, dropStrings: bool)
    requires IsQuote(q) && Contents(body, q, closed) && (closed || rest == "")
    ensures Strip(body + (Closing(q, closed) + rest), Some(q), dropStrings)
         == (if dropStrings then "" else body) + (Closing(q, closed) + Strip(rest, None, dropStrings))
    decreases |body|
  {
    var s := body + (Closing(q, closed) + rest);
    if body == "" {
      StripClosing(q, closed, rest, dropStrings);
      assert s == Closing(q, closed) + rest;
      assert "" + (Closing(q, closed) + Strip(rest, None, dropStrings)) == Closing(q, closed) + Strip(rest, None, dropStrings);
    } else {
      hide Strip, IsQuote;
      var n := |if body[0] == '\\' then Pair(body) else [body[0]]|;
      StripContents(body[n..], q, closed, rest, dropStrings);
      StripStep(s, Some(q), dropStrings);
      ContentsAhead(body, n, Closing(q, closed) + rest, q, dropStrings);
      Regroup(body[..n], body[n..], Closing(q, closed) + Strip(rest, None, dropStrings));
    }
  }

  lemma Regroup(a: string, b: string, c: string)
    ensures a + (b + c) == (a + b) + c
  {
  }

  lemma ContentsAhead(body: string, n: nat, after: string, q: char, dropStrings: bool)
    requires body != "" && n == |if body[0] == '\\' then Pair(body) else [body[0]]|
    requires body[0] != q || body[0] == '\\'
    requires body == "\\" ==> after == ""
    ensures StepOf(body + after, Some(q), dropStrings) == Step(if dropStrings then "" else body[..n], Some(q), body[n..] + after)
    ensures body[..n] + body[n..] == body
  {
    assert (body + after)[n..] == body[n..] + after;
    assert (body + after)[..n] == body[..n];
  }

  lemma StripClosing(q: char, closed: bool, rest: string, dropStrings: bool)
    requires q != '\\' && (closed || rest == "")
    ensures Strip(Closing(q, closed) + rest, Some(q), dropStrings) == Closing(q, closed) + Strip(rest, None, dropStrings)
  {
    if closed {
      assert ([q] + rest)[1..] == rest;
    }
  }

  lemma {:induction false} LineEnds(text: string, rest: string)
    requires '\n' !in text && (rest == "" || rest[0] == '\n')
    ensures AfterLine(text + rest) == rest
  {
    if text == "" {
      assert text + rest == rest;
    } else {
      LineEnds(text[1..], rest);
      assert (text + rest)[1..] == text[1..] + rest;
    }
  }

  lemma BlockTextTail(text: string, closed: bool)
    requires text != ""
    ensures BlockText(text, closed) <==> !EndsHere(text + BlockClosing(closed), 0) && BlockText(text[1..], closed)
  {
    var all, tail := text + BlockClosing(closed), text[1..] + BlockClosing(closed);
    assert all[1..] == tail;
    if BlockText(text, closed) {
      forall k | 0 <= k < |text[1..]| ensures !EndsHere(tail, k) {
        assert !EndsHere(all, k + 1);
      }
    }
    if !EndsHere(all, 0) && BlockText(text[1..], closed) {
      forall k | 0 <= k < |text| ensures !EndsHere(all, k) {
        if k > 0 { assert !EndsHere(tail, k - 1); }
      }
    }
  }

  lemma {:induction false} BlockEnds(text: string, closed: bool, rest: string)
    requires BlockText(text, closed) && (closed || rest == "")
    ensures AfterBlock(text + BlockClosing(closed) + rest) == rest
  {
    var s := text + BlockClosing(closed) + rest;
    if text == "" {
      assert s == BlockClosing(closed) + rest;
      if closed { assert s[2..] == rest; }
    } else {
      BlockTextTail(text, closed);
      BlockEnds(text[1..], closed, rest);
      assert s[1..] == text[1..] + BlockClosing(closed) + rest;
    }
  }

  lemma Opening(q: char, after: string, dropStrings: bool)
    requires IsQuote(q)
    ensures Strip([q] + after, None, dropStrings) == [q] + Strip(after, Some(q), dropStrings)
  {
    hide Strip;
    StripStep([q] + after, None, dropStrings);
    assert ([q] + after)[1..] == after;
  }

  lemma StripQuoted(q: char, body: string, closed: bool, rest: string, dropStrings: bool)
    requires IsQuote(q) && Contents(body, q, closed) && (closed || rest == "")
    ensures Strip(Spelled(Quoted(q, body, closed)) + rest, None, dropStrings)
         == Left(Quoted(q, body, closed), dropStrings) + Strip(rest, None, dropStrings)
  {
    hide Strip, Contents, IsQuote;
    var kept := if dropStrings then "" else body;
    Regroup(body, Closing(q, closed), rest);
    Regroup([q], body + Closing(q, closed), rest);
    Opening(q, body + (Closing(q, closed) + rest), dropStrings);
    StripContents(body, q, closed, rest, dropStrings);
    Regroup(kept, Closing(q, closed), Strip(rest, None, dropStrings));
    Regroup([q], kept + Closing(q, closed), Strip(rest, None, dropStrings));
  }

  lemma StripLine(text: string, rest: string, dropStrings: bool)
    requires '\n' !in text && (rest == "" || rest[0] == '\n')
    ensures Strip("//" + text + rest, None, dropStrings) == Strip(rest, None, dropStrings)
  {
    hide Strip, AfterLine;
    var s := "//" + text + rest;
    StripStep(s, None, dropStrings);
    LineEnds(text, rest);
    assert s[2..] == text + rest;
  }

  lemma StripBlock(text: string, closed: bool, rest: string, dropStrings: bool)
    requires BlockText(text, closed) && (closed || rest == "")
    ensures Strip("/*" + (text + BlockClosing(closed)) + rest, None, dropStrings) == Strip(rest, None, dropStrings)
  {
    hide Strip, AfterBlock, BlockText;
    var s := "/*" + (text + BlockClosing(closed)) + rest;
    StripStep(s, None, dropStrings);
    BlockEnds(text, closed, rest);
    assert s[2..] == text + BlockClosing(closed) + rest;
  }

  lemma StripSegment(g: Segment, rest: string, dropStrings: bool)
    requires Fits(g, rest)
    ensures Strip(Spelled(g) + rest, None, dropStrings) == Left(g, dropStrings) + Strip(rest, None, dropStrings)
  {
    hide Strip, Contents, BlockText;
    if g.Code? {
      StripStep([g.c] + rest, None, dropStrings);
      assert ([g.c] + rest)[1..] == rest;
    } else if g.Quoted? {
      StripQuoted(g.quote, g.body, g.closed, rest, dropStrings);
    } else if g.LineComment? {
      StripLine(g.text, rest, dropStrings);
    } else {
      StripBlock(g.text, g.closed, rest, dropStrings);
    }
  }

  /** However a source is split into fitting segments, the stripper emits what is left of them. */
  lemma {:induction false} StripIsSegments(s: string, gs: seq<Segment>, dropStrings: bool)
    requires Splits(s, gs)
    ensures Strip(s, None, dropStrings) == LeftAll(gs, dropStrings)
    decreases |gs|
  {
    if gs != [] {
      var rest := SpelledAll(gs[1..]);
      StripSegment(gs[0], rest, dropStrings);
      StripIsSegments(rest, gs[1..], dropStrings);
    }
  }

  // --- every source splits -----------------------------------------------------------------------

  lemma {:induction false} StringAhead(s: string, q: char) returns (body: string, closed: bool, rest: string)
    ensures s == body + (Closing(q, closed) + rest) && Contents(body, q, closed) && (closed || rest == "")
    decreases |s|
  {
    if s == "" {
      body, closed, rest := "", false, "";
    } else if s[0] == q && q != '\\' {
      body, closed, rest := "", true, s[1..];
    } else if s == "\\" {
      body, closed, rest := s, false, "";
    } else {
      var n := if s[0] == '\\' then 2 else 1;
      var tail;
      tail, closed, rest := StringAhead(s[n..], q);
      body := s[..n] + tail;
      assert body[n..] == tail;
    }
  }

  lemma {:induction false} LineAhead(s: string) returns (text: string, rest: string)
    ensures s == text + rest && '\n' !in text && (rest == "" || rest[0] == '\n')
  {
    if s == "" || s[0] == '\n' {
      text, rest := "", s;
    } else {
      text, rest := LineAhead(s[1..]);
      text := [s[0]] + text;
    }
  }

  lemma {:induction false} BlockAhead(s: string) returns (text: string, closed: bool, rest: string)
    ensures s == text + BlockClosing(closed) + rest && (closed || rest == "") && BlockText(text, closed)
  {
    if s == "" {
      text, closed, rest := "", false, "";
    } else if EndsHere(s, 0) {
      text, closed, rest := "", true, s[2..];
    } else {
      var tail;
      tail, closed, rest := BlockAhead(s[1..]);
      text := [s[0]] + tail;
      assert text[1..] == tail && s == [s[0]] + s[1..];
      assert text + BlockClosing(closed) <= s;
      BlockTextTail(text, closed);
    }
  }

  /** The segment at the head of a source. */
  lemma SegmentAhead(s: string) returns (g: Segment, rest: string)
    requires s != ""
    ensures s == Spelled(g) + rest && Fits(g, rest) && |rest| < |s|
  {
    if IsQuote(s[0]) {
      var body, closed, after := StringAhead(s[1..], s[0]);
      g, rest := Quoted(s[0], body, closed), after;
    } else if StartsComment(s) && s[1] == '/' {
      var text, after := LineAhead(s[2..]);
      g, rest := LineComment(text), after;
    } else if StartsComment(s) {
      var text, closed, after := BlockAhead(s[2..]);
      g, rest := BlockComment(text, closed), after;
    } else {
      g, rest := Code(s[0]), s[1..];
      assert [s[0]] + rest == s;
    }
  }

  /** Every source splits into fitting segments. */
  lemma {:induction false} SegmentsOf(s: string) returns (gs: seq<Segment>)
    ensures Splits(s, gs) && SpelledAll(gs) == s
    decreases |s|
  {
    if s == "" {
      gs := [];
    } else {
      var g, rest := SegmentAhead(s);
      var tail := SegmentsOf(rest);
      gs := [g] + tail;
    }
  }

  // --- the stripper ------------------------------------------------------------------------------

  /** What is left of a source from a position that may lie past its end. */
  function From(s: string, i: nat): string {
    if i < |s| then s[i..] else ""
  }

  /** One turn of the loop keeps what has been and will be emitted. */
  lemma Turn(s: string, i: nat, quote: Option<char>, dropStrings: bool, out: string, t: Step, j: nat)
    requires i < |s| && StepOf(From(s, i), quote, dropStrings) == t && t.rest == From(s, j)
    ensures out + Strip(From(s, i), quote, dropStrings) == (out + t.out) + Strip(From(s, j), t.quote, dropStrings)
  {
    StripStep(From(s, i), quote, dropStrings);
    Regroup(out, t.out, Strip(From(s, j), t.quote, dropStrings));
  }

  function Following(s: string, i: nat): string {
    if i + 1 < |s| then [s[i + 1]] else ""
  }

  lemma EscapeStep(s: string, i: nat, q: char, dropStrings: bool)
    requires i < |s| && s[i] == '\\'
    ensures StepOf(From(s, i), Some(q), dropStrings)
         == Step(if dropStrings then "" else [s[i]] + Following(s, i), Some(q), From(s, i + 2))
  {
    var here := From(s, i);
    assert Pair(here) == [s[i]] + Following(s, i);
    assert here[|Pair(here)|..] == From(s, i + 2);
  }

  lemma PlainStep(s: string, i: nat, quote: Option<char>, dropStrings: bool)
    requires i < |s| && (quote.Some? ==> s[i] != '\\') && (quote.None? ==> !StartsComment(From(s, i)))
    ensures StepOf(From(s, i), quote, dropStrings) ==
      if quote == Some(s[i]) then Step([s[i]], None, From(s, i + 1))
      else if quote.Some? then Step(if dropStrings then "" else [s[i]], quote, From(s, i + 1))
      else Step([s[i]], if IsQuote(s[i]) then Some(s[i]) else None, From(s, i + 1))
  {
    assert From(s, i)[1..] == From(s, i + 1);
  }

  lemma CommentStep(s: string, i: nat, j: nat, dropStrings: bool)
    requires i + 1 < |s| && s[i] == '/' && s[i + 1] in {'/', '*'}
    requires From(s, j) == if s[i + 1] == '/' then AfterLine(s[i + 2..]) else AfterBlock(s[i + 2..])
    ensures StepOf(From(s, i), None, dropStrings) == Step("", None, From(s, j))
  {
    assert From(s, i)[2..] == s[i + 2..];
  }

  method StripCode(source: string, dropStrings: bool) returns (out: string)
    ensures out == Strip(source, None, dropStrings)
    ensures exists gs :: Splits(source, gs) && out == LeftAll(gs, dropStrings)
    ensures forall gs | Splits(source, gs) :: out == LeftAll(gs, dropStrings)
  {
    hide Strip, Splits, LeftAll, StepOf, From, AfterLine, AfterBlock, IsQuote;
    out := "";
    var i := 0;
    var quote: Option<char> := None;
    FromStart(source);
    while i < |source|
      invariant Strip(source, None, dropStrings) == out + Strip(From(source, i), quote, dropStrings)
      decreases |source| - i
    {
      ghost var here := i;
      var c := source[i];
      if quote.Some? {
        if c == '\\' {
          EscapeStep(source, i, quote.value, dropStrings);
          Turn(source, i, quote, dropStrings, out, StepOf(From(source, i), quote, dropStrings), i + 2);
          out := out + if !dropStrings then [c] + Following(source, i) else "";
          i := i + 2;
          continue;
        }
        PlainStep(source, i, quote, dropStrings);
        Turn(source, i, quote, dropStrings, out, StepOf(From(source, i), quote, dropStrings), i + 1);
        if c == quote.value {
          quote := None;
          out := out + [c];
        } else {
          out := out + if !dropStrings then [c] else "";
        }
        i := i + 1;
        continue;
      }
      SlashesAt(source, i);
      if IsQuote(c) {
        PlainStep(source, i, None, dropStrings);
        Turn(source, i, None, dropStrings, out, StepOf(From(source, i), None, dropStrings), i + 1);
        quote := Some(c);
        out := out + [c];
        i := i + 1;
        continue;
      }
      if c == '/' && i + 1 < |source| && source[i + 1] == '/' {
        i := SkipLine(source, i);
        CommentStep(source, here, i, dropStrings);
        Turn(source, here, None, dropStrings, out, Step("", None, From(source, i)), i);
        out := out + "";
        continue;
      }
      if c == '/' && i + 1 < |source| && source[i + 1] == '*' {
        i := SkipBlock(source, i + 2);
        CommentStep(source, here, i, dropStrings);
        Turn(source, here, None, dropStrings, out, Step("", None, From(source, i)), i);
        out := out + "";
        continue;
      }
      PlainStep(source, i, None, dropStrings);
      Turn(source, i, None, dropStrings, out, StepOf(From(source, i), None, dropStrings), i + 1);
      out := out + [c];
      i := i + 1;
    }
    StripsAsSplit(source, dropStrings);
    NothingAhead(source, i, quote, dropStrings);
  }

  lemma SlashesAt(s: string, i: nat)
    requires i < |s|
    ensures StartsComment(From(s, i)) <==> i + 1 < |s| && s[i] == '/' && s[i + 1] in {'/', '*'}
    ensures IsQuote(s[i]) ==> s[i] != '/'
  {
  }

  lemma FromStart(s: string)
    ensures From(s, 0) == s
  {
  }

  lemma NothingAhead(s: string, i: nat, quote: Option<char>, dropStrings: bool)
    requires |s| <= i
    ensures Strip(From(s, i), quote, dropStrings) == ""
  {
  }

  /** The inner loop over a line comment, from its first slash. */
  method SkipLine(source: string, start: nat) returns (i: nat)
    requires start + 1 < |source| && source[start] == source[start + 1] == '/'
    ensures start + 2 <= i <= |source| && From(source, i) == AfterLine(source[start + 2..])
  {
    ghost var rest := AfterLine(source[start + 2..]);
    assert From(source, start)[1..][1..] == source[start + 2..];
    i := start;
    while i < |source| && source[i] != '\n'
      invariant start <= i <= |source| && AfterLine(From(source, i)) == rest
      invariant i < start + 2 ==> source[i] == '/'
    {
      assert From(source, i)[1..] == From(source, i + 1);
      i := i + 1;
    }
  }

  lemma BlockAt(s: string, i: nat)
    requires i < |s|
    ensures AfterBlock(From(s, i)) ==
      if s[i] == '*' && i + 1 < |s| && s[i + 1] == '/' then From(s, i + 2) else AfterBlock(From(s, i + 1))
  {
    var here := From(s, i);
    assert here[1..] == From(s, i + 1);
    if |here| > 1 { assert here[2..] == From(s, i + 2); }
  }

  /** The inner loop over a block comment, from just after its opening, and past its end. */
  method SkipBlock(source: string, start: nat) returns (i: nat)
    requires start <= |source|
    ensures start <= i && From(source, i) == AfterBlock(source[start..])
  {
    hide AfterBlock;
    i := start;
    assert From(source, start) == source[start..];
    while i < |source| && !(source[i] == '*' && i + 1 < |source| && source[i + 1] == '/')
      invariant start <= i <= |source| && AfterBlock(From(source, i)) == AfterBlock(source[start..])
    {
      BlockAt(source, i);
      i := i + 1;
    }
    if i < |source| { BlockAt(source, i); } else { BlockAfterEnd(); }
    i := i + 2;
  }

  lemma BlockAfterEnd()
    ensures AfterBlock("") == ""
  {
  }

  lemma StripsAsSplit(s: string, dropStrings: bool)
    ensures exists gs :: Splits(s, gs) && Strip(s, None, dropStrings) == LeftAll(gs, dropStrings)
    ensures forall gs | Splits(s, gs) :: Strip(s, None, dropStrings) == LeftAll(gs, dropStrings)
  {
    var gs := SegmentsOf(s);
    StripIsSegments(s, gs, dropStrings);
    forall gs | Splits(s, gs) ensures Strip(s, None, dropStrings) == LeftAll(gs, dropStrings) {
      StripIsSegments(s, gs, dropStrings);
    }
  }

  // --- stripping what is stripped ----------------------------------------------------------------

  /** Outside strings a source that does not start with a slash starts its output the same way. */
  lemma HeadStays(s: string, dropStrings: bool)
    requires s != "" && s[0] != '/'
    ensures Strip(s, None, dropStrings) != "" && Strip(s, None, dropStrings)[0] == s[0]
  {
  }

  /** A code slash kept in the output cannot meet another slash or a star there. */
  lemma NoNewComment(s: string, dropStrings: bool)
    requires s != "" && !IsQuote(s[0]) && !StartsComment(s)
    ensures !StartsComment([s[0]] + Strip(s[1..], None, dropStrings))
  {
    var tail := Strip(s[1..], None, dropStrings);
    if s[0] == '/' && |s| > 1 {
      HeadStays(s[1..], dropStrings);
    }
  }

  /** A turn that emits nothing opens and closes no string, and dropping more changes nothing in it. */
  lemma SilentStep(s: string, quote: Option<char>, a: bool, b: bool)
    requires s != "" && StepOf(s, quote, a).out == ""
    ensures StepOf(s, quote, a || b) == StepOf(s, quote, a) && StepOf(s, quote, a).quote == quote
  {
  }

  /** What a turn emits is read back, by the second pass, in one turn that ends in the same state. */
  lemma StepAgain(s: string, quote: Option<char>, a: bool, b: bool)
    requires s != "" && StepOf(s, quote, a).out != ""
    ensures var t := StepOf(s, quote, a);
      var tail := Strip(t.rest, t.quote, a);
      && StepOf(t.out + tail, quote, b) == Step(StepOf(s, quote, a || b).out, t.quote, tail)
      && StepOf(s, quote, a || b).quote == t.quote && StepOf(s, quote, a || b).rest == t.rest
  {
    var t := StepOf(s, quote, a);
    var tail := Strip(t.rest, t.quote, a);
    if quote.Some? && s[0] == '\\' {
      if |s| == 1 { EmptyStrip(quote, a); }
      PairAgain(s, tail);
    } else {
      assert ([s[0]] + tail)[1..] == tail;
      if quote.None? && !IsQuote(s[0]) { NoNewComment(s, a); }
    }
  }

  /** An escape kept by the first pass is read as the same escape by the second. */
  lemma PairAgain(s: string, tail: string)
    requires s != "" && (|s| == 1 ==> tail == "")
    ensures Pair(Pair(s) + tail) == Pair(s) && (Pair(s) + tail)[|Pair(s)|..] == tail
  {
  }

  lemma EmptyStrip(quote: Option<char>, dropStrings: bool)
    ensures Strip("", quote, dropStrings) == ""
  {
  }

  /**
   * Stripping twice is stripping once, in every mix: contents dropped by either pass are dropped,
   * and nothing else changes.
   */
  lemma {:induction false} StripTwice(s: string, quote: Option<char>, a: bool, b: bool)
    ensures Strip(Strip(s, quote, a), quote, b) == Strip(s, quote, a || b)
    decreases |s|
  {
    hide Strip, StepOf;
    if s == "" {
      EmptyStrip(quote, a);
      EmptyStrip(quote, b);
      EmptyStrip(quote, a || b);
    } else {
      var t := StepOf(s, quote, a);
      var tail := Strip(t.rest, t.quote, a);
      StripStep(s, quote, a);
      StripStep(s, quote, a || b);
      StripTwice(t.rest, t.quote, a, b);
      if t.out == "" {
        SilentStep(s, quote, a, b);
        assert t.out + tail == tail;
        assert t.out + Strip(t.rest, quote, a || b) == Strip(t.rest, quote, a || b);
      } else {
        StepAgain(s, quote, a, b);
        StripStep(t.out + tail, quote, b);
      }
    }
  }

  lemma Idempotent(s: string, dropStrings: bool)
    ensures Strip(Strip(s, None, dropStrings), None, dropStrings) == Strip(s, None, dropStrings)
  {
    StripTwice(s, None, dropStrings, dropStrings);
  }

  /** Strings may as well be dropped from the text whose comments are already gone. */
  lemma DropLater(s: string)
    ensures Strip(Strip(s, None, false), None, true) == Strip(s, None, true)
  {
    StripTwice(s, None, false, true);
  }

  ghost predicate HasComment(gs: seq<Segment>) {
    exists g :: g in gs && (g.LineComment? || g.BlockComment?)
  }

  lemma {:induction false} LeftShorter(gs: seq<Segment>)
    ensures |LeftAll(gs, false)| <= |SpelledAll(gs)|
    ensures HasComment(gs) ==> |LeftAll(gs, false)| < |SpelledAll(gs)|
  {
    if gs != [] {
      LeftShorter(gs[1..]);
      if HasComment(gs) && !(gs[0].LineComment? || gs[0].BlockComment?) {
        var g :| g in gs && (g.LineComment? || g.BlockComment?);
        assert g in gs[1..];
      }
    }
  }

  /** No comment is left in the output, however it is split: removing one never makes another. */
  lemma NoCommentLeft(s: string, dropStrings: bool, gs: seq<Segment>)
    requires Splits(Strip(s, None, dropStrings), gs)
    ensures !HasComment(gs)
  {
    var out := Strip(s, None, dropStrings);
    StripTwice(s, None, dropStrings, false);
    StripIsSegments(out, gs, false);
    assert SpelledAll(gs) == out;
    LeftShorter(gs);
  }
}
