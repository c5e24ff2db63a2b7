/**
 * The in-memory store's own reading of a filter, over plain row objects. It renders values and lowers
 * case its own way and knows no ranges; `MemoryFinds` says exactly which SQL selection it agrees with.
 */
module Memory {
  import opened Wrappers
  import opened JsonValues
  import opened SortKeys
  import opened Like
  import opened Filters
  import opened Rows

  /** JavaScript's text of a number, array or object, its ISO timestamps, and lower case of whole texts. */
  datatype Js = Js(text: Json -> string, iso: int -> string, lower: string -> string)

  // --- the reading -------------------------------------------------------------------------------

  /** A property of the row object: meta columns beside the keys of the body. */
  function ValueOf(js: Js, v: View, field: string): Option<Json> {
    if field == "id" then Some(Str(v.id))
    else if field == "type" then Some(Str(v.kind))
    else if field == "createdAt" then Some(Str(js.iso(v.createdAt)))
    else if field == "deleted" then Some(Bool(v.deleted))
    else Get(v.body, field)
  }

  function TextOfJson(js: Js, value: Json): Option<string> {
    match value
    case Null => None
    case Str(s) => Some(s)
    case Bool(b) => Some(if b then "true" else "false")
    case _ => Some(js.text(value))
  }

  function ObjectText(js: Js, v: View, field: string): Option<string> {
    match ValueOf(js, v, field)
    case None => None
    case Some(value) => TextOfJson(js, value)
  }

  predicate BeginsLowered(js: Js, text: Option<string>, prefix: string) {
    text.Some? && js.lower(prefix) <= js.lower(text.value)
  }

  predicate MatchesQ(js: Js, v: View, q: Option<Search>) {
    q.None? || q.value.text == "" || q.value.fields == []
    || exists f | f in q.value.fields :: BeginsLowered(js, ObjectText(js, v, f), q.value.text)
  }

  predicate InValues(text: Option<string>, values: seq<string>) {
    text.Some? && text.value in values
  }

  predicate MatchesWhere(js: Js, v: View, w: ListWhere)
    decreases w, 1
  {
    && (forall e | e in w.equals :: ObjectText(js, v, e.field) == Some(e.value))
    && (w.ids.Some? ==> v.id in w.ids.value)
    && (forall s | s in w.sets :: InValues(ObjectText(js, v, s.field), s.values))
    && MatchesQ(js, v, w.q)
    && (w.anyOf.AnyOf? ==> MatchesSome(js, v, w.anyOf.groups))
    && (w.not.Some? ==> !MatchesWhere(js, v, w.not.value))
  }

  predicate MatchesSome(js: Js, v: View, ws: seq<ListWhere>)
    decreases ws
  {
    ws != [] && (MatchesWhere(js, v, ws[0]) || MatchesSome(js, v, ws[1..]))
  }

  /** What `first` and `where` of the in-memory store return: live rows that match. */
  predicate Found(js: Js, v: View, w: Where) {
    !v.deleted && MatchesWhere(js, v, AsListWhere(w))
  }

  // --- when the two stores see the same texts ----------------------------------------------------

  function FoldAll(fold: Fold, s: string): (t: string)
    ensures |t| == |s|
    ensures forall i | 0 <= i < |s| :: t[i] == fold(s[i])
  {
    seq(|s|, i requires 0 <= i < |s| => fold(s[i]))
  }

  /** Lowering a text is lowering each of its characters as ILIKE does. */
  ghost predicate LowersByCharacter(js: Js, fold: Fold) {
    forall s: string :: js.lower(s) == FoldAll(fold, s)
  }

  /**
   * The database and JavaScript spell this field of the row alike. Strings and nulls always are; the
   * reserved keys are hidden from JavaScript, so a filter that names them sees them in one store only.
   */
  predicate RendersAlike(p: Platform, js: Js, row: Row, field: string) {
    && (field == "createdAt" ==> js.iso(row.createdAt) == p.renderTime(row.createdAt))
    && (field !in META_COLUMNS && field in row.body && row.body[field] != Null ==>
          field != SORT_KEYS && (row.body[field].Str? || TextOfJson(js, row.body[field]) == Some(p.render(row.body[field]))))
  }

  /** The condition is exact: a field reads as one text in both stores exactly when it holds. */
  lemma SameTextExactly(p: Platform, js: Js, id: string, row: Row, field: string)
    ensures ObjectText(js, Decode(id, row), field) == FieldText(AsText(p, id, row), field)
       <==> RendersAlike(p, js, row, field)
  {
    var body := Decode(id, row).body;
    assert field != SORT_KEYS ==> Get(body, field) == Get(row.body, field);
    assert SORT_KEYS !in body;
  }

  /** The fields a filter compares, ranges apart. */
  function NamedFields(w: ListWhere): set<string>
    decreases w, 1
  {
    (set e | e in w.equals :: e.field)
    + (set s | s in w.sets :: s.field)
    + (if w.q.Some? then set f | f in w.q.value.fields else {})
    + (if w.anyOf.AnyOf? then NamedInSome(w.anyOf.groups) else {})
    + (if w.not.Some? then NamedFields(w.not.value) else {})
  }

  function NamedInSome(ws: seq<ListWhere>): set<string>
    decreases ws
  {
    if ws == [] then {} else NamedFields(ws[0]) + NamedInSome(ws[1..])
  }

  /** `deleted`, where a filter compares it, is spelled as one of its two texts. */
  predicate DeletedSpelled(w: ListWhere)
    decreases w, 1
  {
    && (forall e | e in w.equals && e.field == "deleted" :: e.value in {"true", "false"})
    && (w.anyOf.AnyOf? ==> AllDeletedSpelled(w.anyOf.groups))
    && (w.not.Some? ==> DeletedSpelled(w.not.value))
  }

  predicate AllDeletedSpelled(ws: seq<ListWhere>)
    decreases ws
  {
    ws == [] || (DeletedSpelled(ws[0]) && AllDeletedSpelled(ws[1..]))
  }

  // --- the same filter without its ranges ----------------------------------------------------------

  function WithoutRanges(w: ListWhere): ListWhere
    decreases w, 1
  {
    ListWhere(w.equals, w.ids, w.sets, None, w.q,
              if w.anyOf.AnyOf? then AnyOf(AllWithoutRanges(w.anyOf.groups)) else Unset,
              if w.not.Some? then Some(WithoutRanges(w.not.value)) else None)
  }

  function AllWithoutRanges(ws: seq<ListWhere>): seq<ListWhere>
    decreases ws
  {
    if ws == [] then [] else [WithoutRanges(ws[0])] + AllWithoutRanges(ws[1..])
  }

  predicate RangeFree(w: ListWhere)
    decreases w, 1
  {
    w.range.None? && (w.anyOf.AnyOf? ==> AllRangeFree(w.anyOf.groups)) && (w.not.Some? ==> RangeFree(w.not.value))
  }

  predicate AllRangeFree(ws: seq<ListWhere>)
    decreases ws
  {
    ws == [] || (RangeFree(ws[0]) && AllRangeFree(ws[1..]))
  }

  lemma {:induction false} RangeFreeStays(w: ListWhere)
    ensures WithoutRanges(w) == w <==> RangeFree(w)
    decreases w, 1
  {
    if w.anyOf.AnyOf? { AllRangeFreeStay(w.anyOf.groups); }
    if w.not.Some? { RangeFreeStays(w.not.value); }
  }

  lemma {:induction false} AllRangeFreeStay(ws: seq<ListWhere>)
    ensures AllWithoutRanges(ws) == ws <==> AllRangeFree(ws)
    decreases ws
  {
    if ws != [] {
      RangeFreeStays(ws[0]);
      AllRangeFreeStay(ws[1..]);
      assert ws == [ws[0]] + ws[1..];
      var all := AllWithoutRanges(ws);
      assert all == [WithoutRanges(ws[0])] + AllWithoutRanges(ws[1..]);
      assert all[0] == WithoutRanges(ws[0]) && all[1..] == AllWithoutRanges(ws[1..]);
    }
  }

  // --- what the in-memory store finds --------------------------------------------------------------

  lemma PairsAlike(p: Platform, js: Js, id: string, row: Row, es: seq<Pair>)
    requires forall e | e in es :: RendersAlike(p, js, row, e.field)
    requires forall e | e in es && e.field == "deleted" :: e.value in {"true", "false"}
    ensures (forall e | e in es :: ObjectText(js, Decode(id, row), e.field) == Some(e.value))
       <==> (forall e | e in es :: PairHolds(AsText(p, id, row), e))
  {
    hide ObjectText, RendersAlike, FieldTexts, Decode;
    forall e | e in es
      ensures ObjectText(js, Decode(id, row), e.field) == Some(e.value) <==> PairHolds(AsText(p, id, row), e)
    {
      SameTextExactly(p, js, id, row, e.field);
    }
  }

  lemma SetsAlike(p: Platform, js: Js, id: string, row: Row, ss: seq<InSet>)
    requires forall s | s in ss :: RendersAlike(p, js, row, s.field)
    ensures (forall s | s in ss :: InValues(ObjectText(js, Decode(id, row), s.field), s.values))
       <==> (forall s | s in ss :: MatchesText(FieldText(AsText(p, id, row), s.field), t => t in s.values))
  {
    hide ObjectText, RendersAlike, AsText, Decode, FieldText;
    forall s | s in ss
      ensures InValues(ObjectText(js, Decode(id, row), s.field), s.values)
         <==> MatchesText(FieldText(AsText(p, id, row), s.field), t => t in s.values)
    {
      SameTextExactly(p, js, id, row, s.field);
    }
  }

  /** A prefix of the lowered text is a text whose characters fold to a prefix. */
  lemma LoweredPrefix(js: Js, fold: Fold, prefix: string, text: string)
    requires LowersByCharacter(js, fold)
    ensures js.lower(prefix) <= js.lower(text) <==> FoldedPrefix(fold, prefix, text)
  {
    var a, b := FoldAll(fold, prefix), FoldAll(fold, text);
    assert js.lower(prefix) == a && js.lower(text) == b;
    if FoldedPrefix(fold, prefix, text) {
      assert a == b[..|a|];
    }
    if a <= b {
      forall i | 0 <= i < |prefix| ensures fold(prefix[i]) == fold(text[i]) {
        assert a[i] == b[i];
      }
    }
  }

  lemma SearchAlike(p: Platform, js: Js, id: string, row: Row, q: Search)
    requires LowersByCharacter(js, p.fold)
    requires forall f | f in q.fields :: RendersAlike(p, js, row, f)
    ensures MatchesQ(js, Decode(id, row), Some(q)) <==> MatchesSearch(p.fold, AsText(p, id, row), q)
  {
    hide ObjectText, RendersAlike, AsText, Decode, FieldText, LowersByCharacter, FoldedPrefix;
    forall f | f in q.fields
      ensures BeginsLowered(js, ObjectText(js, Decode(id, row), f), q.text)
         <==> FieldBegins(p.fold, AsText(p, id, row), f, q.text)
    {
      SameTextExactly(p, js, id, row, f);
      var text := FieldText(AsText(p, id, row), f);
      if text.Some? { LoweredPrefix(js, p.fold, q.text, text.value); }
    }
  }

  lemma FlatAlike(p: Platform, js: Js, id: string, row: Row, w: ListWhere)
    requires LowersByCharacter(js, p.fold) && DeletedSpelled(w)
    requires forall f | f in NamedFields(w) :: RendersAlike(p, js, row, f)
    ensures ReadsFlat(p.fold, AsText(p, id, row), WithoutRanges(w))
       <==> (&& (forall e | e in w.equals :: ObjectText(js, Decode(id, row), e.field) == Some(e.value))
             && (w.ids.Some? ==> id in w.ids.value)
             && (forall s | s in w.sets :: InValues(ObjectText(js, Decode(id, row), s.field), s.values))
             && MatchesQ(js, Decode(id, row), w.q))
  {
    forall e | e in w.equals ensures e.field in NamedFields(w) { }
    forall s | s in w.sets ensures s.field in NamedFields(w) { }
    hide RendersAlike, ObjectText, LowersByCharacter, MatchesQ, MatchesSearch, PairHolds, FieldText, MatchesText, InValues;
    PairsAlike(p, js, id, row, w.equals);
    SetsAlike(p, js, id, row, w.sets);
    if w.q.Some? { SearchAlike(p, js, id, row, w.q.value); } else { NoSearch(js, Decode(id, row)); }
  }

  lemma NoSearch(js: Js, v: View)
    ensures MatchesQ(js, v, None)
  {
  }

  /** At any nesting, the in-memory reading is the boolean reading of the filter without its ranges. */
  lemma {:induction false} MemoryReads(p: Platform, js: Js, id: string, row: Row, w: ListWhere)
    requires LowersByCharacter(js, p.fold) && DeletedSpelled(w)
    requires forall f | f in NamedFields(w) :: RendersAlike(p, js, row, f)
    ensures MatchesWhere(js, Decode(id, row), w) <==> Reads(p.fold, AsText(p, id, row), WithoutRanges(w))
    decreases w, 1
  {
    FlatAlike(p, js, id, row, w);
    hide RendersAlike, ObjectText, LowersByCharacter, MatchesQ, ReadsFlat, InValues, AsText;
    if w.anyOf.AnyOf? { MemoryReadsSome(p, js, id, row, w.anyOf.groups); }
    if w.not.Some? { MemoryReads(p, js, id, row, w.not.value); }
  }

  lemma {:induction false} MemoryReadsSome(p: Platform, js: Js, id: string, row: Row, ws: seq<ListWhere>)
    requires LowersByCharacter(js, p.fold) && AllDeletedSpelled(ws)
    requires forall f | f in NamedInSome(ws) :: RendersAlike(p, js, row, f)
    ensures MatchesSome(js, Decode(id, row), ws) <==> ReadsSome(p.fold, AsText(p, id, row), AllWithoutRanges(ws))
    decreases ws
  {
    hide RendersAlike, LowersByCharacter, AsText, Decode;
    if ws != [] {
      MemoryReads(p, js, id, row, ws[0]);
      MemoryReadsSome(p, js, id, row, ws[1..]);
      assert AllWithoutRanges(ws)[1..] == AllWithoutRanges(ws[1..]);
    }
  }

  /**
   * The in-memory store finds exactly what the SQL statement selects for the same filter with every
   * range, at any depth, taken out.
   */
  lemma MemoryFinds(p: Platform, js: Js, id: string, row: Row, w: Where)
    requires LowersByCharacter(js, p.fold) && DeletedSpelled(AsListWhere(w))
    requires forall f | f in NamedFields(AsListWhere(w)) :: RendersAlike(p, js, row, f)
    ensures Found(js, Decode(id, row), w)
       <==> Selects(p.fold, AsText(p, id, row), Some(Full(WithoutRanges(AsListWhere(w)))))
  {
    hide RendersAlike, LowersByCharacter, MatchesWhere, Selects, Reads;
    MemoryReads(p, js, id, row, AsListWhere(w));
    SelectsMeaning(p.fold, AsText(p, id, row), Some(Full(WithoutRanges(AsListWhere(w)))));
  }

  /** The two shorthands in memory: every pair's text is the object's own, on a live row. */
  lemma PairsFound(js: Js, v: View, ps: seq<Pair>, p: Pair)
    ensures Found(js, v, Pairs(ps)) <==> !v.deleted && forall e | e in ps :: ObjectText(js, v, e.field) == Some(e.value)
    ensures Found(js, v, OnePair(p)) <==> !v.deleted && ObjectText(js, v, p.field) == Some(p.value)
  {
    hide ObjectText;
    assert p in AsListWhere(OnePair(p)).equals;
  }

  /** Without a range anywhere the two stores agree on the row. */
  lemma MemoryAgrees(p: Platform, js: Js, id: string, row: Row, w: Where)
    requires LowersByCharacter(js, p.fold) && DeletedSpelled(AsListWhere(w)) && RangeFree(AsListWhere(w))
    requires forall f | f in NamedFields(AsListWhere(w)) :: RendersAlike(p, js, row, f)
    ensures Found(js, Decode(id, row), w) <==> Selects(p.fold, AsText(p, id, row), Some(w))
  {
    hide RendersAlike, LowersByCharacter, MatchesWhere, Conditions, Eval;
    MemoryFinds(p, js, id, row, w);
    RangeFreeStays(AsListWhere(w));
  }

  // --- where they part -----------------------------------------------------------------------------

  /** A bare range on a field the row lacks: found in memory, not selected by SQL; and the reverse under `not`. */
  lemma BareRange(p: Platform, js: Js, id: string, row: Row, field: string, from: string)
    requires !row.deleted && field !in row.body
    ensures var bare := NO_FILTER.(range := Some(Range(field, Some(from), None)));
      var negated := NO_FILTER.(not := Some(bare));
      && Found(js, Decode(id, row), Full(bare)) && !Selects(p.fold, AsText(p, id, row), Some(Full(bare)))
      && !Found(js, Decode(id, row), Full(negated)) && Selects(p.fold, AsText(p, id, row), Some(Full(negated)))
  {
    var bare := NO_FILTER.(range := Some(Range(field, Some(from), None)));
    var negated := NO_FILTER.(not := Some(bare));
    SelectsMeaning(p.fold, AsText(p, id, row), Some(Full(bare)));
    SelectsMeaning(p.fold, AsText(p, id, row), Some(Full(negated)));
    hide Selects;
    assert !Reads(p.fold, AsText(p, id, row), bare) by {
      assert !InRange(AsText(p, id, row), bare.range.value);
    }
    assert Reads(p.fold, AsText(p, id, row), negated);
  }

  /** A third spelling of `deleted`: SQL takes it for false and selects the live row, the text comparison finds nothing. */
  lemma DeletedMisspelled(p: Platform, js: Js, id: string, row: Row, spelling: string)
    requires spelling !in {"true", "false"}
    ensures var w := OnePair(Pair("deleted", spelling));
      !Found(js, Decode(id, row), w) && (Selects(p.fold, AsText(p, id, row), Some(w)) <==> !row.deleted)
  {
    var pair := Pair("deleted", spelling);
    var w := AsListWhere(OnePair(pair));
    assert pair in w.equals && ObjectText(js, Decode(id, row), "deleted") != Some(spelling);
    SelectsMeaning(p.fold, AsText(p, id, row), Some(OnePair(pair)));
  }
}
