/**
 * List filters: the `ListWhere` vocabulary, the SQL predicate the store compiles it to, and the
 * plain boolean reading. SQL predicates are evaluated in three-valued logic (sections 9.1 and 9.2
 * of the PostgreSQL documentation); `ConditionsMeaning` says the compilation preserves meaning.
 */
module Filters {
  import opened Wrappers
  import opened Text
  import opened Like

  // --- the vocabulary --------------------------------------------------------------------------

  datatype Pair = Pair(field: string, value: string)
  datatype InSet = InSet(field: string, values: seq<string>)
  datatype Range = Range(field: string, from: Option<string>, to: Option<string>)
  datatype Search = Search(text: string, fields: seq<string>)

  datatype ListWhere = ListWhere(
    equals: seq<Pair>,
    ids: Option<seq<string>>,
    sets: seq<InSet>,
    range: Option<Range>,
    q: Option<Search>,
    anyOf: Alternatives,
    not: Option<ListWhere>)

  /** No groups given differs from an empty list of groups, which matches nothing. */
  datatype Alternatives = Unset | AnyOf(groups: seq<ListWhere>)

  /** One pair, several pairs ANDed, or the full vocabulary. */
  datatype Where = OnePair(pair: Pair) | Pairs(pairs: seq<Pair>) | Full(criteria: ListWhere)

  const NO_FILTER := ListWhere([], None, [], None, None, Unset, None)

  function AsListWhere(w: Where): ListWhere {
    match w
    case OnePair(p) => NO_FILTER.(equals := [p])
    case Pairs(ps) => NO_FILTER.(equals := ps)
    case Full(c) => c
  }

  // --- rows as the filters see them ------------------------------------------------------------

  /** The meta columns and the text of each body field (`body ->> field`); absent means SQL NULL. */
  datatype TextRow = TextRow(id: string, kind: string, createdAt: string, deleted: bool, texts: map<string, string>)

  const META_COLUMNS := {"id", "type", "createdAt", "deleted"}

  function BodyText(row: TextRow, field: string): Option<string> {
    if field in row.texts then Some(row.texts[field]) else None
  }

  function ColumnText(row: TextRow, field: string): string
    requires field in META_COLUMNS
  {
    if field == "id" then row.id
    else if field == "type" then row.kind
    else if field == "createdAt" then row.createdAt
    else if row.deleted then "true" else "false"
  }

  function FieldText(row: TextRow, field: string): Option<string> {
    if field in META_COLUMNS then Some(ColumnText(row, field)) else BodyText(row, field)
  }

  // --- SQL predicates --------------------------------------------------------------------------

  datatype Operand = Column(column: string) | Body(field: string)

  datatype Pred =
    | Const(b: bool)
    | DeletedIs(b: bool)
    | Equal(operand: Operand, value: string)
    | EqualAny(operand: Operand, values: seq<string>)
    | AtLeast(operand: Operand, value: string)
    | AtMost(operand: Operand, value: string)
    | Matches(operand: Operand, pattern: string)
    | And(parts: seq<Pred>)
    | Or(parts: seq<Pred>)
    | IsNotTrue(p: Pred)

  datatype Truth = True | False | Unknown

  function Of(b: bool): Truth { if b then True else False }

  function OperandText(row: TextRow, operand: Operand): Option<string> {
    match operand
    case Column(c) => if c in META_COLUMNS then Some(ColumnText(row, c)) else None
    case Body(f) => BodyText(row, f)
  }

  /** A comparison with NULL is Unknown. */
  function Compare(operand: Option<string>, test: string -> bool): Truth {
    if operand.None? then Unknown else Of(test(operand.value))
  }

  function Both(a: Truth, b: Truth): Truth {
    if a == False || b == False then False else if a == Unknown || b == Unknown then Unknown else True
  }

  function Either(a: Truth, b: Truth): Truth {
    if a == True || b == True then True else if a == Unknown || b == Unknown then Unknown else False
  }

  function Eval(fold: Fold, row: TextRow, p: Pred): Truth
    decreases p, 0
  {
    match p
    case Const(b) => Of(b)
    case DeletedIs(b) => Of(row.deleted == b)
    case Equal(o, v) => Compare(OperandText(row, o), t => t == v)
    case EqualAny(o, vs) => Compare(OperandText(row, o), t => t in vs)
    case AtLeast(o, v) => Compare(OperandText(row, o), t => !TextLess(t, v))
    case AtMost(o, v) => Compare(OperandText(row, o), t => !TextLess(v, t))
    case Matches(o, pattern) => Compare(OperandText(row, o), t => ILike(fold, t, pattern))
    case And(ps) => EvalAll(fold, row, ps)
    case Or(ps) => EvalAny(fold, row, ps)
    case IsNotTrue(p) => Of(Eval(fold, row, p) != True)
  }

  function EvalAll(fold: Fold, row: TextRow, ps: seq<Pred>): Truth
    decreases ps
  {
    if ps == [] then True else Both(Eval(fold, row, ps[0]), EvalAll(fold, row, ps[1..]))
  }

  function EvalAny(fold: Fold, row: TextRow, ps: seq<Pred>): Truth
    decreases ps
  {
    if ps == [] then False else Either(Eval(fold, row, ps[0]), EvalAny(fold, row, ps[1..]))
  }

  // --- compilation -----------------------------------------------------------------------------

  function OperandOf(field: string): Operand {
    if field in META_COLUMNS then Column(field) else Body(field)
  }

  function EqualsPred(e: Pair): Pred {
    if e.field == "deleted" then DeletedIs(e.value == "true") else Equal(OperandOf(e.field), e.value)
  }

  function InPred(s: InSet): Pred {
    if s.values == [] then Const(false) else EqualAny(OperandOf(s.field), s.values)
  }

  function SearchBranch(text: string, field: string): Pred {
    Matches(OperandOf(field), EscapeLike(text) + [MANY])
  }

  function SearchPred(text: string, fields: seq<string>): Pred {
    Or(seq(|fields|, i requires 0 <= i < |fields| => SearchBranch(text, fields[i])))
  }

  function EqualsPreds(es: seq<Pair>): seq<Pred> { seq(|es|, i requires 0 <= i < |es| => EqualsPred(es[i])) }
  function InPreds(ss: seq<InSet>): seq<Pred> { seq(|ss|, i requires 0 <= i < |ss| => InPred(ss[i])) }

  function IdsPreds(ids: Option<seq<string>>): seq<Pred> {
    if ids.None? then [] else [if ids.value == [] then Const(false) else EqualAny(Column("id"), ids.value)]
  }

  function RangePreds(r: Option<Range>): seq<Pred> {
    if r.None? then []
    else
      (if r.value.from.Some? then [AtLeast(Body(r.value.field), r.value.from.value)] else [])
      + (if r.value.to.Some? then [AtMost(Body(r.value.field), r.value.to.value)] else [])
  }

  predicate Searches(q: Option<Search>) {
    q.Some? && q.value.text != "" && q.value.fields != []
  }

  function SearchPreds(q: Option<Search>): seq<Pred> {
    if Searches(q) then [SearchPred(q.value.text, q.value.fields)] else []
  }

  function FlatConditions(w: ListWhere): seq<Pred> {
    EqualsPreds(w.equals) + IdsPreds(w.ids) + InPreds(w.sets) + RangePreds(w.range) + SearchPreds(w.q)
  }

  function AnyOfPreds(alternatives: Alternatives): seq<Pred>
    decreases alternatives, 0
  {
    match alternatives
    case Unset => []
    case AnyOf(groups) => [if groups == [] then Const(false) else Or(Groups(groups))]
  }

  function NotPreds(not: Option<ListWhere>): seq<Pred>
    decreases not, 0
  {
    match not
    case None => []
    case Some(w) => [IsNotTrue(Group(w))]
  }

  function Conditions(w: ListWhere): seq<Pred>
    decreases w, 1
  {
    FlatConditions(w) + AnyOfPreds(w.anyOf) + NotPreds(w.not)
  }

  function Group(w: ListWhere): Pred
    decreases w, 2
  {
    if Conditions(w) == [] then Const(true) else And(Conditions(w))
  }

  function Groups(ws: seq<ListWhere>): seq<Pred>
    decreases ws
  {
    if ws == [] then [] else [Group(ws[0])] + Groups(ws[1..])
  }

  method BuildFlatConditions(w: ListWhere) returns (parts: seq<Pred>)
    ensures parts == FlatConditions(w)
  {
    parts := [];
    for i := 0 to |w.equals|
      invariant parts == EqualsPreds(w.equals)[..i]
    {
      parts := parts + [EqualsPred(w.equals[i])];
    }
    if w.ids.Some? {
      parts := parts + [if w.ids.value == [] then Const(false) else EqualAny(Column("id"), w.ids.value)];
    }
    ghost var before := EqualsPreds(w.equals) + IdsPreds(w.ids);
    assert parts == before;
    for i := 0 to |w.sets|
      invariant parts == before + InPreds(w.sets)[..i]
    {
      parts := parts + [InPred(w.sets[i])];
    }
    assert parts == before + InPreds(w.sets);
    if w.range.Some? && w.range.value.from.Some? {
      parts := parts + [AtLeast(Body(w.range.value.field), w.range.value.from.value)];
    }
    if w.range.Some? && w.range.value.to.Some? {
      parts := parts + [AtMost(Body(w.range.value.field), w.range.value.to.value)];
    }
    assert parts == before + InPreds(w.sets) + RangePreds(w.range);
    if Searches(w.q) {
      parts := parts + [SearchPred(w.q.value.text, w.q.value.fields)];
    }
  }

  /** The conditions pushed one by one, in the order the store writes them into the statement. */
  method BuildConditions(w: ListWhere) returns (parts: seq<Pred>)
    ensures parts == Conditions(w)
    decreases w, 1
  {
    parts := BuildFlatConditions(w);
    if w.anyOf.AnyOf? {
      if w.anyOf.groups == [] {
        parts := parts + [Const(false)];
      } else {
        var groups := BuildGroups(w.anyOf.groups);
        parts := parts + [Or(groups)];
      }
    }
    if w.not.Some? {
      var g := BuildGroup(w.not.value);
      parts := parts + [IsNotTrue(g)];
    }
  }

  method BuildGroup(w: ListWhere) returns (p: Pred)
    ensures p == Group(w)
    decreases w, 2
  {
    var parts := BuildConditions(w);
    p := if parts == [] then Const(true) else And(parts);
  }

  method BuildGroups(ws: seq<ListWhere>) returns (ps: seq<Pred>)
    ensures ps == Groups(ws)
    decreases ws
  {
    if ws == [] {
      ps := [];
    } else {
      var p := BuildGroup(ws[0]);
      var rest := BuildGroups(ws[1..]);
      ps := [p] + rest;
    }
  }

  // --- the plain reading -----------------------------------------------------------------------

  predicate MatchesText(text: Option<string>, test: string -> bool) {
    text.Some? && test(text.value)
  }

  predicate InRange(row: TextRow, r: Range) {
    && (r.from.Some? ==> MatchesText(BodyText(row, r.field), t => !TextLess(t, r.from.value)))
    && (r.to.Some? ==> MatchesText(BodyText(row, r.field), t => !TextLess(r.to.value, t)))
  }

  predicate MatchesSearch(fold: Fold, row: TextRow, q: Search) {
    q.text == "" || q.fields == []
    || exists f | f in q.fields :: FieldBegins(fold, row, f, q.text)
  }

  predicate FieldBegins(fold: Fold, row: TextRow, field: string, text: string) {
    MatchesText(FieldText(row, field), t => FoldedPrefix(fold, text, t))
  }

  /** A pair holds when the field's text is the value; `deleted` is a boolean, and any value but `true` asks for false. */
  predicate PairHolds(row: TextRow, e: Pair) {
    if e.field == "deleted" then row.deleted == (e.value == "true") else FieldText(row, e.field) == Some(e.value)
  }

  /** The conditions that contain no other group. */
  predicate ReadsFlat(fold: Fold, row: TextRow, w: ListWhere) {
    && (forall e | e in w.equals :: PairHolds(row, e))
    && (w.ids.Some? ==> row.id in w.ids.value)
    && (forall s | s in w.sets :: MatchesText(FieldText(row, s.field), t => t in s.values))
    && (w.range.Some? ==> InRange(row, w.range.value))
    && (w.q.Some? ==> MatchesSearch(fold, row, w.q.value))
  }

  /** The boolean reading: every condition given holds, some alternative holds, the negated group does not. */
  predicate Reads(fold: Fold, row: TextRow, w: ListWhere)
    decreases w, 1
  {
    && ReadsFlat(fold, row, w)
    && (w.anyOf.AnyOf? ==> ReadsSome(fold, row, w.anyOf.groups))
    && (w.not.Some? ==> !Reads(fold, row, w.not.value))
  }

  predicate ReadsSome(fold: Fold, row: TextRow, ws: seq<ListWhere>)
    decreases ws
  {
    ws != [] && (Reads(fold, row, ws[0]) || ReadsSome(fold, row, ws[1..]))
  }

  // --- meaning is preserved --------------------------------------------------------------------

  ghost predicate AllTrue(fold: Fold, row: TextRow, ps: seq<Pred>) {
    forall i | 0 <= i < |ps| :: Eval(fold, row, ps[i]) == True
  }

  lemma {:induction false} EvalAllTrue(fold: Fold, row: TextRow, ps: seq<Pred>)
    ensures EvalAll(fold, row, ps) == True <==> AllTrue(fold, row, ps)
  {
    if ps != [] {
      EvalAllTrue(fold, row, ps[1..]);
      assert ps == [ps[0]] + ps[1..];
      AllTrueConcat(fold, row, [ps[0]], ps[1..]);
    }
  }

  lemma AllTrueConcat(fold: Fold, row: TextRow, ps: seq<Pred>, qs: seq<Pred>)
    ensures AllTrue(fold, row, ps + qs) <==> AllTrue(fold, row, ps) && AllTrue(fold, row, qs)
  {
    if AllTrue(fold, row, ps + qs) {
      assert forall i | 0 <= i < |ps| :: ps[i] == (ps + qs)[i];
      assert forall i | 0 <= i < |qs| :: qs[i] == (ps + qs)[|ps| + i];
    }
  }

  lemma {:induction false} EvalAnyTrue(fold: Fold, row: TextRow, ps: seq<Pred>)
    ensures EvalAny(fold, row, ps) == True <==> exists i :: 0 <= i < |ps| && Eval(fold, row, ps[i]) == True
  {
    if ps != [] {
      var rest := ps[1..];
      EvalAnyTrue(fold, row, rest);
      if i :| 0 <= i < |ps| && Eval(fold, row, ps[i]) == True {
        if i > 0 { assert rest[i - 1] == ps[i]; }
      }
      if i :| 0 <= i < |rest| && Eval(fold, row, rest[i]) == True {
        assert ps[i + 1] == rest[i];
      }
    }
  }

  lemma EqualsMeaning(fold: Fold, row: TextRow, es: seq<Pair>)
    ensures AllTrue(fold, row, EqualsPreds(es)) <==> forall e | e in es :: PairHolds(row, e)
  {
    forall i | 0 <= i < |es| ensures Eval(fold, row, EqualsPreds(es)[i]) == True <==> PairHolds(row, es[i]) {
    }
    hide Eval, PairHolds;
    if AllTrue(fold, row, EqualsPreds(es)) {
      forall e | e in es ensures PairHolds(row, e) {
        var i :| 0 <= i < |es| && es[i] == e;
        assert Eval(fold, row, EqualsPreds(es)[i]) == True;
      }
    }
    if forall e | e in es :: PairHolds(row, e) {
      forall i | 0 <= i < |es| ensures Eval(fold, row, EqualsPreds(es)[i]) == True {
        assert es[i] in es;
      }
    }
  }

  lemma InMeaning(fold: Fold, row: TextRow, ss: seq<InSet>)
    ensures AllTrue(fold, row, InPreds(ss))
        <==> forall s | s in ss :: MatchesText(FieldText(row, s.field), t => t in s.values)
  {
    forall i | 0 <= i < |ss|
      ensures Eval(fold, row, InPreds(ss)[i]) == True
          <==> MatchesText(FieldText(row, ss[i].field), t => t in ss[i].values)
    {
    }
    if AllTrue(fold, row, InPreds(ss)) {
      forall s | s in ss ensures MatchesText(FieldText(row, s.field), t => t in s.values) {
        var i :| 0 <= i < |ss| && ss[i] == s;
        assert Eval(fold, row, InPreds(ss)[i]) == True;
      }
    }
    if forall s | s in ss :: MatchesText(FieldText(row, s.field), t => t in s.values) {
      forall i | 0 <= i < |ss| ensures Eval(fold, row, InPreds(ss)[i]) == True {
        assert ss[i] in ss;
      }
    }
  }

  lemma SearchMeaning(fold: Fold, row: TextRow, q: Search)
    requires q.text != "" && q.fields != []
    ensures Eval(fold, row, SearchPred(q.text, q.fields)) == True <==> MatchesSearch(fold, row, q)
  {
    var ps := SearchPred(q.text, q.fields).parts;
    assert Eval(fold, row, SearchPred(q.text, q.fields)) == EvalAny(fold, row, ps);
    hide Eval, EvalAny, SearchBranch;
    EvalAnyTrue(fold, row, ps);
    if i :| 0 <= i < |ps| && Eval(fold, row, ps[i]) == True {
      BranchMeaning(fold, row, q.text, q.fields[i]);
      assert q.fields[i] in q.fields;
    }
    if f :| f in q.fields && FieldBegins(fold, row, f, q.text) {
      var i :| 0 <= i < |q.fields| && q.fields[i] == f;
      BranchMeaning(fold, row, q.text, f);
      assert Eval(fold, row, ps[i]) == True;
    }
  }

  lemma BranchMeaning(fold: Fold, row: TextRow, text: string, field: string)
    ensures Eval(fold, row, SearchBranch(text, field)) == True <==> FieldBegins(fold, row, field, text)
  {
    var value := FieldText(row, field);
    if value.Some? { EscapedPrefix(fold, text, value.value); }
  }

  lemma AllTrueOne(fold: Fold, row: TextRow, p: Pred)
    ensures AllTrue(fold, row, [p]) <==> Eval(fold, row, p) == True
  {
    if AllTrue(fold, row, [p]) { assert [p][0] == p; }
  }

  lemma RangeMeaning(fold: Fold, row: TextRow, r: Range)
    ensures AllTrue(fold, row, RangePreds(Some(r))) <==> InRange(row, r)
  {
    var from := if r.from.Some? then [AtLeast(Body(r.field), r.from.value)] else [];
    var to := if r.to.Some? then [AtMost(Body(r.field), r.to.value)] else [];
    AllTrueConcat(fold, row, from, to);
    if r.from.Some? { AllTrueOne(fold, row, from[0]); }
    if r.to.Some? { AllTrueOne(fold, row, to[0]); }
    assert RangePreds(Some(r)) == from + to;
  }

  lemma IdsMeaning(fold: Fold, row: TextRow, ids: Option<seq<string>>)
    ensures AllTrue(fold, row, IdsPreds(ids)) <==> (ids.Some? ==> row.id in ids.value)
  {
    if ids.Some? { AllTrueOne(fold, row, IdsPreds(ids)[0]); }
  }

  lemma FlatSplit(fold: Fold, row: TextRow, w: ListWhere)
    ensures AllTrue(fold, row, FlatConditions(w))
        <==> (&& AllTrue(fold, row, EqualsPreds(w.equals))
              && AllTrue(fold, row, IdsPreds(w.ids))
              && AllTrue(fold, row, InPreds(w.sets))
              && AllTrue(fold, row, RangePreds(w.range))
              && AllTrue(fold, row, SearchPreds(w.q)))
  {
    var a, b, c, d, e := EqualsPreds(w.equals), IdsPreds(w.ids), InPreds(w.sets), RangePreds(w.range), SearchPreds(w.q);
    AllTrueConcat(fold, row, a, b);
    AllTrueConcat(fold, row, a + b, c);
    AllTrueConcat(fold, row, a + b + c, d);
    AllTrueConcat(fold, row, a + b + c + d, e);
  }

  lemma ConditionsSplit(fold: Fold, row: TextRow, w: ListWhere)
    ensures AllTrue(fold, row, Conditions(w))
        <==> (&& AllTrue(fold, row, FlatConditions(w))
              && AllTrue(fold, row, AnyOfPreds(w.anyOf))
              && AllTrue(fold, row, NotPreds(w.not)))
  {
    AllTrueConcat(fold, row, FlatConditions(w), AnyOfPreds(w.anyOf));
    AllTrueConcat(fold, row, FlatConditions(w) + AnyOfPreds(w.anyOf), NotPreds(w.not));
  }

  lemma FlatMeaning(fold: Fold, row: TextRow, w: ListWhere)
    ensures AllTrue(fold, row, FlatConditions(w)) <==> ReadsFlat(fold, row, w)
  {
    FlatSplit(fold, row, w);
    EqualsMeaning(fold, row, w.equals);
    IdsMeaning(fold, row, w.ids);
    InMeaning(fold, row, w.sets);
    if w.range.Some? { RangeMeaning(fold, row, w.range.value); }
    if Searches(w.q) {
      SearchMeaning(fold, row, w.q.value);
      AllTrueOne(fold, row, SearchPreds(w.q)[0]);
    }
  }

  lemma {:induction false} GroupsMeaning(fold: Fold, row: TextRow, ws: seq<ListWhere>)
    ensures EvalAny(fold, row, Groups(ws)) == True <==> ReadsSome(fold, row, ws)
    decreases ws
  {
    if ws != [] {
      GroupMeaning(fold, row, ws[0]);
      GroupsMeaning(fold, row, ws[1..]);
      assert Groups(ws)[1..] == Groups(ws[1..]);
    }
  }

  lemma {:induction false} GroupMeaning(fold: Fold, row: TextRow, w: ListWhere)
    ensures Eval(fold, row, Group(w)) == True <==> Reads(fold, row, w)
    decreases w, 2
  {
    hide Conditions, Reads;
    ConditionsMeaning(fold, row, w);
    EvalAllTrue(fold, row, Conditions(w));
  }

  /** Every condition evaluates to TRUE exactly when the plain reading holds, at any nesting. */
  lemma {:induction false} ConditionsMeaning(fold: Fold, row: TextRow, w: ListWhere)
    ensures AllTrue(fold, row, Conditions(w)) <==> Reads(fold, row, w)
    decreases w, 1
  {
    FlatMeaning(fold, row, w);
    ConditionsSplit(fold, row, w);
    if w.anyOf.AnyOf? {
      GroupsMeaning(fold, row, w.anyOf.groups);
      AllTrueOne(fold, row, AnyOfPreds(w.anyOf)[0]);
    }
    if w.not.Some? {
      GroupMeaning(fold, row, w.not.value);
      AllTrueOne(fold, row, NotPreds(w.not)[0]);
    }
  }

  /** The whole clause of a page or lookup: live rows whose conditions are all TRUE. */
  predicate Selects(fold: Fold, row: TextRow, w: Option<Where>) {
    Eval(fold, row, And([DeletedIs(false)] + if w.None? then [] else Conditions(AsListWhere(w.value)))) == True
  }

  lemma SelectsConditions(fold: Fold, row: TextRow, w: ListWhere)
    ensures Selects(fold, row, Some(Full(w))) <==> !row.deleted && AllTrue(fold, row, Conditions(w))
  {
    EvalAllTrue(fold, row, [DeletedIs(false)] + Conditions(w));
    AllTrueConcat(fold, row, [DeletedIs(false)], Conditions(w));
    AllTrueOne(fold, row, DeletedIs(false));
  }

  /** What a statement returns: the live rows the plain reading accepts. */
  lemma SelectsMeaning(fold: Fold, row: TextRow, w: Option<Where>)
    ensures Selects(fold, row, w) <==> !row.deleted && (w.Some? ==> Reads(fold, row, AsListWhere(w.value)))
  {
    if w.Some? {
      SelectsConditions(fold, row, AsListWhere(w.value));
      ConditionsMeaning(fold, row, AsListWhere(w.value));
    } else {
      assert [DeletedIs(false)] + [] == [DeletedIs(false)];
      EvalAllTrue(fold, row, [DeletedIs(false)]);
      AllTrueOne(fold, row, DeletedIs(false));
    }
  }

  /** The two shorthands: an array of pairs asks for all of them, a single pair for itself, of the live rows. */
  lemma PairsMeaning(fold: Fold, row: TextRow, ps: seq<Pair>, p: Pair)
    ensures Selects(fold, row, Some(Pairs(ps))) <==> !row.deleted && forall e | e in ps :: PairHolds(row, e)
    ensures Selects(fold, row, Some(OnePair(p))) <==> !row.deleted && PairHolds(row, p)
  {
    hide Selects, PairHolds;
    SelectsMeaning(fold, row, Some(Pairs(ps)));
    SelectsMeaning(fold, row, Some(OnePair(p)));
    assert p in AsListWhere(OnePair(p)).equals;
  }

  /** An `ids` condition only cuts the selection down to those ids. */
  lemma IdsNarrow(fold: Fold, row: TextRow, w: ListWhere, ids: seq<string>)
    requires w.ids.None?
    ensures Selects(fold, row, Some(Full(w.(ids := Some(ids)))))
        <==> row.id in ids && Selects(fold, row, Some(Full(w)))
  {
    var w' := w.(ids := Some(ids));
    SelectsConditions(fold, row, w);
    SelectsConditions(fold, row, w');
    ConditionsSplit(fold, row, w);
    ConditionsSplit(fold, row, w');
    FlatSplit(fold, row, w);
    FlatSplit(fold, row, w');
    IdsMeaning(fold, row, w'.ids);
  }
}
