/**
 * Visibility mediation of lists. The kernel narrows a query to the ids an actor may see, runs the
 * cube's own handler once, checks the answer and audits it. The results compare that answer with
 * the one the same query gets on a table cut down to the visible rows.
 */
module Mediation {
  import opened Wrappers
  import opened Strings
  import opened Listings
  import opened Filters
  import opened Pagination
  import opened Rows
  import opened Pages

  /** What the permission store grants: everything, or a set of ids in insertion order. */
  datatype Visible = Everything | Only(ids: seq<string>)

  datatype ListSource = Scoped | SuperAdmin | CubeAdmin
  datatype AuditRow = AuditRow(source: ListSource, ids: seq<string>)

  /** A handler that breaks its contract is a defect, not a refusal. */
  datatype Outcome = Answer(page: Page) | Defect

  type Handler = ListParams -> Page

  // --- the pieces ------------------------------------------------------------------------------

  function NarrowIds(asked: Option<string>, visible: seq<string>): seq<string> {
    match asked
    case None => visible
    case Some(s) => Filter(TrimAll(Split(s, ',')), id => id in visible)
  }

  function EmptyPage(asked: PageRequest): Page {
    Page([], 0, asked.offset, asked.limit, asked.sortBy.GetOr("createdAt"))
  }

  function ScopedRequest(params: ListParams, ids: seq<string>, asked: PageRequest): ListParams {
    params.(
      ids := Some(Join(ids, ',')),
      page := None,
      pageSize := None,
      offset := Some(Finite(asked.offset as real)),
      limit := Some(Finite(asked.limit as real)))
  }

  function RowIds(page: Page): seq<string> {
    seq(|page.rows|, i requires 0 <= i < |page.rows| => page.rows[i].id)
  }

  /** The page's ids, or nothing when a row lies outside the visible set. */
  function ReturnedIds(page: Page, visible: Visible): Option<seq<string>> {
    if visible.Everything? || forall id | id in RowIds(page) :: id in visible.ids then Some(RowIds(page)) else None
  }

  function SourceOf(visible: Visible, admin: bool): ListSource {
    if visible.Only? then Scoped else if admin then SuperAdmin else CubeAdmin
  }

  /** The mediated answer and the audit row it leaves, if any. */
  function Mediate(handler: Handler, visible: Visible, admin: bool, params: ListParams): (Outcome, Option<AuditRow>) {
    var asked := ListPageRequest(params);
    var ids := if visible.Only? then NarrowIds(params.ids, visible.ids) else [];
    if visible.Only? && ids == [] then (Answer(EmptyPage(asked)), Some(AuditRow(Scoped, [])))
    else
      var page := handler(if visible.Only? then ScopedRequest(params, ids, asked) else params);
      match ReturnedIds(page, visible)
      case None => (Defect, None)
      case Some(returned) => (Answer(page), Some(AuditRow(SourceOf(visible, admin), returned)))
  }

  /** The kernel's wrapper around one list handler, and the audit rows it has written. */
  class Gate {
    var audit: seq<AuditRow>

    constructor ()
      ensures audit == []
    {
      audit := [];
    }

    method MediateList(handler: Handler, visible: Visible, admin: bool, params: ListParams) returns (outcome: Outcome)
      modifies this
      ensures outcome == Mediate(handler, visible, admin, params).0
      ensures audit == old(audit) + (match Mediate(handler, visible, admin, params).1
                                     case None => []
                                     case Some(row) => [row])
      ensures visible.Everything? ==>
        && outcome == Answer(handler(params))
        && audit == old(audit) + [AuditRow(if admin then SuperAdmin else CubeAdmin, RowIds(handler(params)))]
      ensures visible.Only? && outcome.Answer? ==> forall id | id in RowIds(outcome.page) :: id in visible.ids
      ensures visible.Only? && NarrowIds(params.ids, visible.ids) == [] ==>
        var asked := ListPageRequest(params);
        && outcome == Answer(Page([], 0, asked.offset, asked.limit, if asked.sortBy.Some? then asked.sortBy.value else "createdAt"))
        && audit == old(audit) + [AuditRow(Scoped, [])]
    {
      var inner := params;
      if visible.Only? {
        var asked := ListPageRequest(params);
        var ids := NarrowIds(params.ids, visible.ids);
        if |ids| == 0 {
          audit := audit + [AuditRow(Scoped, [])];
          return Answer(EmptyPage(asked));
        }
        inner := ScopedRequest(params, ids, asked);
      }
      var page := handler(inner);
      var returned := ReturnedIds(page, visible);
      if returned.None? {
        return Defect;
      }
      audit := audit + [AuditRow(SourceOf(visible, admin), returned.value)];
      outcome := Answer(page);
    }
  }

  // --- the generic list under mediation --------------------------------------------------------

  function GenericHandler(p: Platform, table: Table, sortable: seq<string>, decl: Declarations,
                          raw: map<string, string>): Handler
    requires IsCollation(p.collate)
  {
    (params: ListParams) => GenericList(p, table, sortable, decl, params, raw)
  }

  /** The table cut down to the visible rows. */
  function Restrict(table: Table, visible: seq<string>): Table {
    map id | id in table && id in visible :: table[id]
  }

  /** An id that survives being joined with commas, split and trimmed. */
  predicate CleanId(id: string) {
    id != "" && ',' !in id && Trim(id) == id
  }

  predicate Clean(ids: seq<string>) {
    forall id | id in ids :: CleanId(id)
  }

  /** Whatever text is read as ids, what comes out is clean. */
  lemma IdsReadAreClean(raw: Option<string>)
    ensures Clean(IdsOf(raw))
  {
    var parts := Split(raw.GetOr(""), ',');
    forall id | id in IdsOf(raw) ensures CleanId(id) {
      var i :| 0 <= i < |parts| && TrimAll(parts)[i] == id;
      assert parts[i] in parts;
      TrimTwice(parts[i]);
    }
  }

  /** An id read from a comma-separated text is one of its parts without the white space around it. */
  lemma IdsReadExactly(parts: seq<string>, id: string)
    requires parts != [] && forall part | part in parts :: ',' !in part
    ensures id in IdsOf(Some(Join(parts, ','))) <==> id != "" && exists part :: part in parts && Trim(part) == id
  {
    SplitJoin(parts, ',');
    TrimmedParts(parts, id);
  }

  /** Ids survive the trip through one comma-separated parameter exactly when each of them is clean. */
  lemma JoinedIdsReadBackExactly(ids: seq<string>)
    requires ids != []
    ensures IdsOf(Some(Join(ids, ','))) == ids <==> Clean(ids)
  {
    if Clean(ids) { JoinedIdsReadBack(ids); }
    IdsReadAreClean(Some(Join(ids, ',')));
  }

  lemma JoinedIdsReadBack(ids: seq<string>)
    requires ids != [] && Clean(ids)
    ensures IdsOf(Some(Join(ids, ','))) == ids
  {
    SplitJoin(ids, ',');
    assert TrimAll(ids) == ids by {
      forall i | 0 <= i < |ids| ensures TrimAll(ids)[i] == ids[i] {
        assert ids[i] in ids;
      }
    }
    FilterAll(ids, s => s != "");
  }

  /** The wrapper injects all visible ids, or those asked for, as the list handler reads them, that are visible, in the order asked. */
  lemma NarrowedExactly(asked: Option<string>, visible: seq<string>)
    ensures "" !in visible ==>
      NarrowIds(asked, visible) == if asked.Some? then Filter(IdsOf(asked), id => id in visible) else visible
    ensures asked.Some? ==> forall id :: id in NarrowIds(asked, visible) <==>
      id in visible && exists part :: part in Split(asked.value, ',') && Trim(part) == id
  {
    if asked.Some? {
      var parts := Split(asked.value, ',');
      if "" !in visible { FilterTwice(TrimAll(parts), s => s != "", id => id in visible); }
      forall id ensures id in TrimAll(parts) <==> exists part :: part in parts && Trim(part) == id { TrimmedParts(parts, id); }
    }
  }

  lemma TrimmedParts(parts: seq<string>, id: string)
    ensures id in TrimAll(parts) <==> exists part :: part in parts && Trim(part) == id
  {
    if part :| part in parts && Trim(part) == id {
      var i :| 0 <= i < |parts| && parts[i] == part;
      assert TrimAll(parts)[i] == id;
    }
  }

  lemma NarrowedIds(asked: Option<string>, visible: seq<string>, id: string)
    requires "" !in visible
    ensures id in NarrowIds(asked, visible) <==> id in visible && (asked.Some? ==> id in IdsOf(asked))
  {
    NarrowedExactly(asked, visible);
  }

  /** The filter without its ids: what every row must satisfy whoever asks. */
  function BaseFilter(params: ListParams, raw: map<string, string>, decl: Declarations): ListWhere {
    NO_FILTER.(equals := AskedPairs(decl.filterFields, raw), q := AskedSearch(params, decl))
  }

  lemma FilterSelects(p: Platform, row: TextRow, params: ListParams, raw: map<string, string>, decl: Declarations)
    ensures Selects(p.fold, row, ListFilter(params, raw, decl))
        <==> (Selects(p.fold, row, Some(Full(BaseFilter(params, raw, decl))))
              && (IdsOf(params.ids) != [] ==> row.id in IdsOf(params.ids)))
  {
    hide Selects;
    var base := BaseFilter(params, raw, decl);
    if IdsOf(params.ids) != [] {
      IdsNarrow(p.fold, row, base, IdsOf(params.ids));
    } else if base == NO_FILTER {
      NoFilterSelects(p.fold, row);
    }
  }

  lemma NoFilterSelects(fold: Like.Fold, row: TextRow)
    ensures Selects(fold, row, Some(Full(NO_FILTER))) <==> Selects(fold, row, None)
  {
    assert Conditions(NO_FILTER) == [];
  }

  // --- two tables, one answer ------------------------------------------------------------------

  /** Rows shared by two tables are listed alike. */
  lemma OrderedAgree(p: Platform, t: Table, t': Table, term: SortTerm, desc: bool, w: Option<Where>, w': Option<Where>)
    requires IsCollation(p.collate)
    requires Matching(p, t, w) == Matching(p, t', w')
    requires forall id | id in Matching(p, t, w) :: t[id] == t'[id]
    ensures Ordered(p, t, term, desc, w) == Ordered(p, t', term, desc, w')
  {
    hide Matching, Ordered;
    RowOrderTotal(p, t, term, desc);
    OrderedListing(p, t, term, desc, w);
    OrderedListing(p, t', term, desc, w');
    ListingUnique(RowOrder(p, t, term, desc), RowOrder(p, t', term, desc), Matching(p, t, w),
                  Ordered(p, t, term, desc, w), Ordered(p, t', term, desc, w'));
  }

  lemma OrderedMatches(p: Platform, t: Table, term: SortTerm, desc: bool, w: Option<Where>, id: string)
    requires IsCollation(p.collate)
    ensures id in Ordered(p, t, term, desc, w) <==> id in Matching(p, t, w)
  {
    hide Matching;
    OrderedListing(p, t, term, desc, w);
  }

  lemma PagesAgree(p: Platform, t: Table, t': Table, sortable: seq<string>, r: PageRequest, w: Option<Where>, w': Option<Where>)
    requires IsCollation(p.collate) && r.offset >= 0 && r.limit >= 0
    requires Matching(p, t, w) == Matching(p, t', w')
    requires forall id | id in Matching(p, t, w) :: t[id] == t'[id]
    ensures PageOf(p, t, sortable, r, w) == PageOf(p, t', sortable, r, w')
  {
    hide Matching, Ordered;
    var term := OrderTerm(r.sortBy, sortable).0;
    OrderedAgree(p, t, t', term, r.descending, w, w');
    var l := Ordered(p, t, term, r.descending, w);
    forall id | id in l ensures id in Matching(p, t, w) {
      OrderedMatches(p, t, term, r.descending, w, id);
    }
    var c := Cut(l, r.offset, r.limit);
    assert Views(t, c) == Views(t', c);
  }

  /** The ids the list handler reads back from the parameter they were injected in. */
  function ReadBack(ids: seq<string>): seq<string> {
    IdsOf(Some(Join(ids, ',')))
  }

  /** Injecting ids, whatever they are, asks for the same page and keeps the other filters. */
  lemma ScopedQuery(params: ListParams, raw: map<string, string>, decl: Declarations, ids: seq<string>)
    ensures var asked := ListPageRequest(params);
      var inner := ScopedRequest(params, ids, asked);
      && ListPageRequest(inner) == asked.(offset := Min(MAX_SAFE_INTEGER, asked.offset))
      && IdsOf(inner.ids) == ReadBack(ids)
      && BaseFilter(inner, raw, decl) == BaseFilter(params, raw, decl)
  {
    hide IdsOf, AskedPairs, Trim;
    var asked := ListPageRequest(params);
    var inner := ScopedRequest(params, ids, asked);
    assert FiniteInt(inner.limit, DEFAULT_LIMIT) == asked.limit;
    assert FiniteInt(inner.offset, 0) == Min(MAX_SAFE_INTEGER, asked.offset);
  }

  /** The caller's other filters with some ids; no ids at all is no condition on them. */
  function WithIds(params: ListParams, raw: map<string, string>, decl: Declarations, ids: seq<string>): Option<Where> {
    Some(Full(BaseFilter(params, raw, decl).(ids := if ids == [] then None else Some(ids))))
  }

  /** Handling a scoped request: the asked page, its offset clamped, of the rows that pass the other filters and whose ids are read back. */
  lemma ScopedPage(p: Platform, t: Table, sortable: seq<string>, decl: Declarations, raw: map<string, string>,
                   params: ListParams, ids: seq<string>)
    requires IsCollation(p.collate)
    ensures var asked := ListPageRequest(params);
      GenericList(p, t, sortable, decl, ScopedRequest(params, ids, asked), raw)
        == PageOf(p, t, sortable, asked.(offset := Min(MAX_SAFE_INTEGER, asked.offset)), WithIds(params, raw, decl, ReadBack(ids)))
  {
    hide IdsOf, ReadBack, ListPageRequest, ListFilter, BaseFilter, Selects, AsText, PageOf;
    var asked := ListPageRequest(params);
    var inner := ScopedRequest(params, ids, asked);
    var read := ReadBack(ids);
    var w := WithIds(params, raw, decl, read);
    ScopedQuery(params, raw, decl, ids);
    forall id | id in t
      ensures Selects(p.fold, AsText(p, id, t[id]), ListFilter(inner, raw, decl)) <==> Selects(p.fold, AsText(p, id, t[id]), w)
    {
      FilterSelects(p, AsText(p, id, t[id]), inner, raw, decl);
      BaseHasNoIds(params, raw, decl);
      if read != [] {
        IdsNarrow(p.fold, AsText(p, id, t[id]), BaseFilter(params, raw, decl), read);
      } else {
        assert w == Some(Full(BaseFilter(params, raw, decl)));
      }
    }
    assert Matching(p, t, ListFilter(inner, raw, decl)) == Matching(p, t, w);
    PagesAgree(p, t, t, sortable, ListPageRequest(inner), ListFilter(inner, raw, decl), w);
  }

  /** The caller's `ids`, when given at all, name at least one id. */
  predicate IdsNotBlank(params: ListParams) {
    params.ids.Some? ==> IdsOf(params.ids) != []
  }

  /** A row passes the restricted list exactly when it is visible, asked for and passes the rest. */
  lemma RestrictedMatching(p: Platform, t: Table, visible: seq<string>, params: ListParams, raw: map<string, string>,
                           decl: Declarations, id: string)
    requires Clean(visible) && IdsNotBlank(params) && id in t
    ensures id in Matching(p, Restrict(t, visible), ListFilter(params, raw, decl))
        <==> (id in NarrowIds(params.ids, visible)
              && Selects(p.fold, AsText(p, id, t[id]), Some(Full(BaseFilter(params, raw, decl)))))
  {
    hide Selects, AsText, NarrowIds, IdsOf, ListFilter, BaseFilter;
    NarrowedIds(params.ids, visible, id);
    var row := AsText(p, id, t[id]);
    FilterSelects(p, row, params, raw, decl);
    assert row.id == id by { AsTextId(p, id, t[id]); }
    BlankIds(params.ids);
  }

  lemma AsTextId(p: Platform, id: string, row: Row)
    ensures AsText(p, id, row).id == id
  {
  }

  lemma BlankIds(asked: Option<string>)
    ensures asked.None? ==> IdsOf(asked) == []
  {
    if asked.None? {
      assert Split("", ',') == [""];
      assert TrimAll([""]) == [""];
    }
  }

  /** Filtering the whole table by the narrowed ids selects what the restricted table gives. */
  lemma ScopedMatching(p: Platform, t: Table, visible: seq<string>, params: ListParams, raw: map<string, string>,
                       decl: Declarations)
    requires Clean(visible) && IdsNotBlank(params)
    ensures var narrow := BaseFilter(params, raw, decl).(ids := Some(NarrowIds(params.ids, visible)));
      Matching(p, t, Some(Full(narrow))) == Matching(p, Restrict(t, visible), ListFilter(params, raw, decl))
  {
    hide Selects, AsText, NarrowIds, ListFilter;
    var ids := NarrowIds(params.ids, visible);
    var base := BaseFilter(params, raw, decl);
    var narrow := base.(ids := Some(ids));
    var restricted := Restrict(t, visible);
    forall id
      ensures id in Matching(p, t, Some(Full(narrow))) <==> id in Matching(p, restricted, ListFilter(params, raw, decl))
    {
      if id in t {
        RestrictedMatching(p, t, visible, params, raw, decl, id);
        IdsNarrow(p.fold, AsText(p, id, t[id]), base, ids);
        AsTextId(p, id, t[id]);
      }
    }
  }

  lemma NoIdsNoRows(p: Platform, t: Table, base: ListWhere)
    requires base.ids == Some([])
    ensures Matching(p, t, Some(Full(base))) == {}
  {
    hide Selects;
    forall id | id in t ensures !Selects(p.fold, AsText(p, id, t[id]), Some(Full(base))) {
      IdsNarrow(p.fold, AsText(p, id, t[id]), base.(ids := None), []);
      assert base == base.(ids := None).(ids := Some([]));
    }
  }

  // --- main results ----------------------------------------------------------------------------

  /** What both callers can compare: the rows, how many there are, and which of them these are. */
  predicate SameAnswer(a: Page, b: Page) {
    a.rows == b.rows && a.total == b.total && a.offset == b.offset && a.limit == b.limit
  }

  /** The answer a scoped actor gets from the generic list. */
  function ScopedAnswer(p: Platform, t: Table, sortable: seq<string>, decl: Declarations, raw: map<string, string>,
                        visible: seq<string>, params: ListParams): Page
    requires IsCollation(p.collate)
  {
    var asked := ListPageRequest(params);
    var ids := NarrowIds(params.ids, visible);
    if ids == [] then EmptyPage(asked)
    else PageOf(p, t, sortable, asked.(offset := Min(MAX_SAFE_INTEGER, asked.offset)),
                Some(Full(BaseFilter(params, raw, decl).(ids := Some(ids)))))
  }

  lemma ViewIds(t: Table, ids: seq<string>, i: nat)
    requires i < |ids| && forall id | id in ids :: id in t
    ensures Views(t, ids)[i].id == ids[i]
  {
  }

  /** A page shows matching rows and counts all of them. */
  lemma PageMatches(p: Platform, t: Table, sortable: seq<string>, r: PageRequest, w: Option<Where>)
    requires IsCollation(p.collate) && r.offset >= 0 && r.limit >= 0
    ensures forall id | id in RowIds(PageOf(p, t, sortable, r, w)) :: id in Matching(p, t, w)
    ensures PageOf(p, t, sortable, r, w).total == |Matching(p, t, w)|
  {
    hide Matching, Ordered;
    var term := OrderTerm(r.sortBy, sortable).0;
    var l := Ordered(p, t, term, r.descending, w);
    var c := Cut(l, r.offset, r.limit);
    OrderedListing(p, t, term, r.descending, w);
    forall id | id in RowIds(PageOf(p, t, sortable, r, w)) ensures id in Matching(p, t, w) {
      var i :| 0 <= i < |c| && Views(t, c)[i].id == id;
      ViewIds(t, c, i);
      assert id == c[i] && c[i] in c && id in l;
      OrderedMatches(p, t, term, r.descending, w, id);
    }
  }

  /** A page filtered by ids shows only those. */
  lemma PageRowIds(p: Platform, t: Table, sortable: seq<string>, r: PageRequest, base: ListWhere, ids: seq<string>)
    requires IsCollation(p.collate) && r.offset >= 0 && r.limit >= 0 && base.ids.None?
    ensures forall id | id in RowIds(PageOf(p, t, sortable, r, Some(Full(base.(ids := Some(ids)))))) :: id in ids
  {
    hide Selects, PageOf, AsText;
    var w := Some(Full(base.(ids := Some(ids))));
    PageMatches(p, t, sortable, r, w);
    forall id | id in Matching(p, t, w) ensures id in ids {
      IdsNarrow(p.fold, AsText(p, id, t[id]), base, ids);
      AsTextId(p, id, t[id]);
    }
  }

  /**
   * Whatever the visible ids look like, the answer is the page of the rows whose ids are read back, or a
   * defect when one of them is not visible: a row outside the visible set is never answered.
   */
  lemma AnyIdsMediation(p: Platform, t: Table, sortable: seq<string>, decl: Declarations, raw: map<string, string>,
                        visible: seq<string>, admin: bool, params: ListParams)
    requires IsCollation(p.collate)
    ensures var (outcome, row) := Mediate(GenericHandler(p, t, sortable, decl, raw), Only(visible), admin, params);
      var asked, ids := ListPageRequest(params), NarrowIds(params.ids, visible);
      var page := if ids == [] then EmptyPage(asked)
        else PageOf(p, t, sortable, asked.(offset := Min(MAX_SAFE_INTEGER, asked.offset)),
                    WithIds(params, raw, decl, ReadBack(ids)));
      if forall id | id in RowIds(page) :: id in visible then outcome == Answer(page) && row == Some(AuditRow(Scoped, RowIds(page)))
      else outcome == Defect && row == None
  {
    hide PageOf, ListPageRequest, ListFilter, NarrowIds, BaseFilter, ReadBack, GenericList, WithIds;
    var asked, ids := ListPageRequest(params), NarrowIds(params.ids, visible);
    if ids == [] {
      assert RowIds(EmptyPage(asked)) == [];
    } else {
      ScopedPage(p, t, sortable, decl, raw, params, ids);
    }
  }

  /** With clean ids the wrapper never trips its own check, and audits exactly the rows returned. */
  lemma ScopedMediation(p: Platform, t: Table, sortable: seq<string>, decl: Declarations, raw: map<string, string>,
                        visible: seq<string>, admin: bool, params: ListParams)
    requires IsCollation(p.collate) && Clean(visible)
    ensures var (outcome, row) := Mediate(GenericHandler(p, t, sortable, decl, raw), Only(visible), admin, params);
      var page := ScopedAnswer(p, t, sortable, decl, raw, visible, params);
      outcome == Answer(page) && row == Some(AuditRow(Scoped, RowIds(page)))
  {
    hide PageOf, ListPageRequest, ListFilter, NarrowIds, BaseFilter, Mediate, Join, IdsOf;
    var ids := NarrowIds(params.ids, visible);
    var asked := ListPageRequest(params);
    AnyIdsMediation(p, t, sortable, decl, raw, visible, admin, params);
    if ids == [] {
      assert RowIds(EmptyPage(asked)) == [];
    } else {
      forall id | id in ids ensures id in visible && CleanId(id) { NarrowedIds(params.ids, visible, id); }
      JoinedIdsReadBack(ids);
      BaseHasNoIds(params, raw, decl);
      var r := asked.(offset := Min(MAX_SAFE_INTEGER, asked.offset));
      var base := BaseFilter(params, raw, decl);
      PageRowIds(p, t, sortable, r, base, ids);
    }
  }

  lemma BaseHasNoIds(params: ListParams, raw: map<string, string>, decl: Declarations)
    ensures BaseFilter(params, raw, decl).ids.None?
  {
  }

  /**
   * A scoped actor's list is the unrestricted list of the visible rows: same rows, total and limit,
   * and the same offset.
   */
  lemma MediatedIsRestricted(p: Platform, t: Table, sortable: seq<string>, decl: Declarations, raw: map<string, string>,
                             visible: seq<string>, admin: bool, params: ListParams)
    requires IsCollation(p.collate) && Clean(visible) && IdsNotBlank(params)
    requires ListPageRequest(params).offset <= MAX_SAFE_INTEGER
    ensures var (outcome, _) := Mediate(GenericHandler(p, t, sortable, decl, raw), Only(visible), admin, params);
      outcome.Answer?
      && SameAnswer(outcome.page, GenericList(p, Restrict(t, visible), sortable, decl, params, raw))
  {
    hide Matching, ListFilter, ListPageRequest, BaseFilter, NarrowIds, Mediate;
    ScopedMediation(p, t, sortable, decl, raw, visible, admin, params);
    ScopedMatching(p, t, visible, params, raw, decl);
    var asked := ListPageRequest(params);
    var ids := NarrowIds(params.ids, visible);
    var narrow := Some(Full(BaseFilter(params, raw, decl).(ids := Some(ids))));
    var w := ListFilter(params, raw, decl);
    if ids == [] {
      NoIdsNoRows(p, t, narrow.value.criteria);
      EmptyMatching(p, Restrict(t, visible), sortable, asked, w);
    } else {
      PagesAgree(p, t, Restrict(t, visible), sortable, asked, narrow, w);
    }
  }

  lemma EmptyMatching(p: Platform, t: Table, sortable: seq<string>, r: PageRequest, w: Option<Where>)
    requires IsCollation(p.collate) && r.offset >= 0 && r.limit >= 0
    requires Matching(p, t, w) == {}
    ensures var page := PageOf(p, t, sortable, r, w);
      page.rows == [] && page.total == 0 && page.offset == r.offset && page.limit == r.limit
  {
    hide Matching;
    OrderedListing(p, t, OrderTerm(r.sortBy, sortable).0, r.descending, w);
  }

  // --- which rows an answer depends on -----------------------------------------------------------

  /** The injected query reaches a row of this id: it is read back, or nothing is and every id passes. */
  predicate Reaches(visible: seq<string>, params: ListParams, id: string) {
    var ids := NarrowIds(params.ids, visible);
    ids != [] && (ReadBack(ids) == [] || id in ReadBack(ids))
  }

  /** The request asks for a row of this id, and the actor may see it. */
  predicate AskedAndVisible(visible: seq<string>, params: ListParams, id: string) {
    id in visible && (IdsOf(params.ids) != [] ==> id in IdsOf(params.ids))
  }

  /** A row under this id would pass the caller's filters other than `ids`. */
  predicate PassesFilters(p: Platform, id: string, row: Row, params: ListParams, raw: map<string, string>, decl: Declarations) {
    Selects(p.fold, AsText(p, id, row), Some(Full(BaseFilter(params, raw, decl))))
  }

  function Mediated(p: Platform, t: Table, sortable: seq<string>, decl: Declarations, raw: map<string, string>,
                    visible: seq<string>, admin: bool, params: ListParams): (Outcome, Option<AuditRow>)
    requires IsCollation(p.collate)
  {
    Mediate(GenericHandler(p, t, sortable, decl, raw), Only(visible), admin, params)
  }

  /** The rows a scoped request counts. */
  function Counted(p: Platform, t: Table, visible: seq<string>, params: ListParams, raw: map<string, string>,
                   decl: Declarations): set<string>
  {
    set id | id in t && Reaches(visible, params, id) && PassesFilters(p, id, t[id], params, raw, decl)
  }

  lemma CountedMatching(p: Platform, t: Table, visible: seq<string>, params: ListParams, raw: map<string, string>, decl: Declarations)
    requires NarrowIds(params.ids, visible) != []
    ensures Matching(p, t, WithIds(params, raw, decl, ReadBack(NarrowIds(params.ids, visible))))
         == Counted(p, t, visible, params, raw, decl)
  {
    hide Selects, AsText, NarrowIds, ReadBack, BaseFilter;
    var read := ReadBack(NarrowIds(params.ids, visible));
    BaseHasNoIds(params, raw, decl);
    var base := BaseFilter(params, raw, decl);
    forall id | id in t
      ensures Selects(p.fold, AsText(p, id, t[id]), WithIds(params, raw, decl, read))
         <==> Reaches(visible, params, id) && PassesFilters(p, id, t[id], params, raw, decl)
    {
      AsTextId(p, id, t[id]);
      if read != [] { IdsNarrow(p.fold, AsText(p, id, t[id]), base, read); } else { assert base.(ids := None) == base; }
    }
  }

  /** The rows of the visible table that the same request lists there. */
  lemma RestrictedCounted(p: Platform, t: Table, visible: seq<string>, params: ListParams, raw: map<string, string>, decl: Declarations)
    ensures Matching(p, Restrict(t, visible), ListFilter(params, raw, decl))
         == set id | id in t && AskedAndVisible(visible, params, id) && PassesFilters(p, id, t[id], params, raw, decl)
  {
    hide Selects, AsText, IdsOf, ListFilter, BaseFilter;
    forall id | id in Restrict(t, visible)
      ensures Selects(p.fold, AsText(p, id, t[id]), ListFilter(params, raw, decl))
         <==> PassesFilters(p, id, t[id], params, raw, decl) && (IdsOf(params.ids) != [] ==> id in IdsOf(params.ids))
    {
      AsTextId(p, id, t[id]);
      FilterSelects(p, AsText(p, id, t[id]), params, raw, decl);
    }
  }

  /** The total of an answer, hidden rows included; and what is shown was counted. */
  lemma AnswerCounts(p: Platform, t: Table, sortable: seq<string>, decl: Declarations, raw: map<string, string>,
                     visible: seq<string>, admin: bool, params: ListParams)
    requires IsCollation(p.collate)
    ensures var outcome := Mediated(p, t, sortable, decl, raw, visible, admin, params).0;
      var counted := Counted(p, t, visible, params, raw, decl);
      && (outcome.Answer? ==> outcome.page.total == |counted|)
      && (outcome == Defect ==> exists id :: id in counted && id !in visible)
  {
    hide ListPageRequest, NarrowIds, ReadBack, WithIds, PageOf, Mediate, Matching, Counted;
    var asked, ids := ListPageRequest(params), NarrowIds(params.ids, visible);
    AnyIdsMediation(p, t, sortable, decl, raw, visible, admin, params);
    if ids == [] {
      NothingCounted(p, t, visible, params, raw, decl);
      assert RowIds(EmptyPage(asked)) == [];
    } else {
      var w := WithIds(params, raw, decl, ReadBack(ids));
      CountedMatching(p, t, visible, params, raw, decl);
      PageMatches(p, t, sortable, asked.(offset := Min(MAX_SAFE_INTEGER, asked.offset)), w);
    }
  }

  lemma NothingCounted(p: Platform, t: Table, visible: seq<string>, params: ListParams, raw: map<string, string>, decl: Declarations)
    requires NarrowIds(params.ids, visible) == []
    ensures Counted(p, t, visible, params, raw, decl) == {}
  {
    hide NarrowIds;
  }

  lemma CountedOne(p: Platform, id: string, row: Row, visible: seq<string>, params: ListParams, raw: map<string, string>, decl: Declarations)
    requires PassesFilters(p, id, row, params, raw, decl)
    ensures Counted(p, map[id := row], visible, params, raw, decl) == if Reaches(visible, params, id) then {id} else {}
    ensures Counted(p, map[], visible, params, raw, decl) == {}
  {
    hide Reaches, PassesFilters;
  }

  /** Two tables that count the same rows, held alike, are answered and audited alike. */
  lemma CountedDecides(p: Platform, t: Table, t': Table, sortable: seq<string>, decl: Declarations, raw: map<string, string>,
                       visible: seq<string>, admin: bool, params: ListParams)
    requires IsCollation(p.collate)
    requires Counted(p, t, visible, params, raw, decl) == Counted(p, t', visible, params, raw, decl)
    requires forall id | id in Counted(p, t, visible, params, raw, decl) :: id in t && id in t' && t[id] == t'[id]
    ensures Mediated(p, t, sortable, decl, raw, visible, admin, params) == Mediated(p, t', sortable, decl, raw, visible, admin, params)
  {
    hide ListPageRequest, NarrowIds, ReadBack, WithIds, PageOf, Mediate, Matching, Counted;
    AnyIdsMediation(p, t, sortable, decl, raw, visible, admin, params);
    AnyIdsMediation(p, t', sortable, decl, raw, visible, admin, params);
    var asked, ids := ListPageRequest(params), NarrowIds(params.ids, visible);
    if ids != [] {
      CountedMatching(p, t, visible, params, raw, decl);
      CountedMatching(p, t', visible, params, raw, decl);
      var w := WithIds(params, raw, decl, ReadBack(ids));
      PagesAgree(p, t, t', sortable, asked.(offset := Min(MAX_SAFE_INTEGER, asked.offset)), w, w);
    }
  }

  /** Tables with the same visible rows are answered and audited alike, whatever hidden rows they hold. */
  ghost predicate HiddenRowsInvisible(p: Platform, sortable: seq<string>, decl: Declarations, raw: map<string, string>,
                                      visible: seq<string>, admin: bool, params: ListParams)
    requires IsCollation(p.collate)
  {
    forall t: Table, t': Table | Restrict(t, visible) == Restrict(t', visible) ::
      Mediated(p, t, sortable, decl, raw, visible, admin, params) == Mediated(p, t', sortable, decl, raw, visible, admin, params)
  }

  /** No hidden id the request reaches can carry a row that passes the caller's other filters. */
  ghost predicate NothingHiddenReached(p: Platform, decl: Declarations, raw: map<string, string>, visible: seq<string>, params: ListParams) {
    forall id, row | Reaches(visible, params, id) && id !in visible :: !PassesFilters(p, id, row, params, raw, decl)
  }

  /** Hidden rows influence nothing, neither rows nor total nor audit, exactly when no hidden id is reached. */
  lemma HiddenRowsExactly(p: Platform, sortable: seq<string>, decl: Declarations, raw: map<string, string>,
                          visible: seq<string>, admin: bool, params: ListParams)
    requires IsCollation(p.collate)
    ensures HiddenRowsInvisible(p, sortable, decl, raw, visible, admin, params)
       <==> NothingHiddenReached(p, decl, raw, visible, params)
  {
    hide IsCollation, Mediated, Reaches, PassesFilters, Counted;
    if NothingHiddenReached(p, decl, raw, visible, params) {
      forall t: Table, t': Table | Restrict(t, visible) == Restrict(t', visible)
        ensures Mediated(p, t, sortable, decl, raw, visible, admin, params) == Mediated(p, t', sortable, decl, raw, visible, admin, params)
      {
        SameCounted(p, t, t', decl, raw, visible, params);
        CountedDecides(p, t, t', sortable, decl, raw, visible, admin, params);
      }
    } else {
      var id, row :| Reaches(visible, params, id) && id !in visible && PassesFilters(p, id, row, params, raw, decl);
      HiddenRowChanges(p, id, row, sortable, decl, raw, visible, admin, params);
      assert Restrict(map[id := row], visible) == Restrict(map[], visible);
    }
  }

  lemma SameCounted(p: Platform, t: Table, t': Table, decl: Declarations, raw: map<string, string>, visible: seq<string>, params: ListParams)
    requires Restrict(t, visible) == Restrict(t', visible) && NothingHiddenReached(p, decl, raw, visible, params)
    ensures var counted := Counted(p, t, visible, params, raw, decl);
      counted == Counted(p, t', visible, params, raw, decl) && forall id | id in counted :: id in t && id in t' && t[id] == t'[id]
  {
    hide Reaches, PassesFilters;
    forall id | id in visible ensures id in t <==> id in t' && (id in t && id in t' ==> t[id] == t'[id]) {
      assert id in Restrict(t, visible) <==> id in Restrict(t', visible);
      if id in t { assert t[id] == Restrict(t, visible)[id] == Restrict(t', visible)[id] == t'[id]; }
    }
  }

  /** One hidden row that is reached and passes changes the answer of an otherwise empty table. */
  lemma HiddenRowChanges(p: Platform, id: string, row: Row, sortable: seq<string>, decl: Declarations, raw: map<string, string>,
                         visible: seq<string>, admin: bool, params: ListParams)
    requires IsCollation(p.collate) && Reaches(visible, params, id) && PassesFilters(p, id, row, params, raw, decl)
    ensures Mediated(p, map[id := row], sortable, decl, raw, visible, admin, params).0
         != Mediated(p, map[], sortable, decl, raw, visible, admin, params).0
  {
    hide Mediated, Reaches, PassesFilters, Counted;
    CountedOne(p, id, row, visible, params, raw, decl);
    AnswerCounts(p, map[id := row], sortable, decl, raw, visible, admin, params);
    AnswerCounts(p, map[], sortable, decl, raw, visible, admin, params);
  }

  /** With clean ids nothing hidden is reached, so hidden rows influence nothing, whatever the request. */
  lemma CleanHidesRows(p: Platform, sortable: seq<string>, decl: Declarations, raw: map<string, string>,
                       visible: seq<string>, admin: bool, params: ListParams)
    requires IsCollation(p.collate) && Clean(visible)
    ensures HiddenRowsInvisible(p, sortable, decl, raw, visible, admin, params)
  {
    hide IdsOf, Join, NarrowIds, PassesFilters, HiddenRowsInvisible;
    forall id | Reaches(visible, params, id) ensures id in visible {
      CleanReached(visible, params, id);
      NarrowedIds(params.ids, visible, id);
    }
    HiddenRowsExactly(p, sortable, decl, raw, visible, admin, params);
  }

  lemma CleanReached(visible: seq<string>, params: ListParams, id: string)
    requires Clean(visible)
    ensures Reaches(visible, params, id) <==> id in NarrowIds(params.ids, visible)
  {
    hide IdsOf, Join, NarrowIds;
    var ids := NarrowIds(params.ids, visible);
    if ids != [] {
      forall x | x in ids ensures CleanId(x) { NarrowedIds(params.ids, visible, x); }
      JoinedIdsReadBack(ids);
    }
  }

  // --- one answer on every table -----------------------------------------------------------------

  /** On one table the mediated answer is the list of the visible rows. */
  predicate AnswersRestricted(p: Platform, t: Table, sortable: seq<string>, decl: Declarations, raw: map<string, string>,
                              visible: seq<string>, admin: bool, params: ListParams)
    requires IsCollation(p.collate)
  {
    var outcome := Mediated(p, t, sortable, decl, raw, visible, admin, params).0;
    outcome.Answer? && SameAnswer(outcome.page, GenericList(p, Restrict(t, visible), sortable, decl, params, raw))
  }

  /** Wherever a row can pass the other filters, the request reaches it exactly when it is asked for and visible. */
  ghost predicate ReachesTheAsked(p: Platform, decl: Declarations, raw: map<string, string>, visible: seq<string>, params: ListParams) {
    forall id, row | PassesFilters(p, id, row, params, raw, decl) ::
      Reaches(visible, params, id) <==> AskedAndVisible(visible, params, id)
  }

  predicate OffsetKept(visible: seq<string>, params: ListParams) {
    NarrowIds(params.ids, visible) == [] || ListPageRequest(params).offset <= MAX_SAFE_INTEGER
  }

  /**
   * For any visible ids at all: the mediated answer is the list of the visible rows on every table
   * exactly when the offset is kept and the request reaches what is asked for and visible, no more, no less.
   */
  lemma MediatedEverywhere(p: Platform, sortable: seq<string>, decl: Declarations, raw: map<string, string>,
                           visible: seq<string>, admin: bool, params: ListParams)
    requires IsCollation(p.collate)
    ensures (forall t: Table :: AnswersRestricted(p, t, sortable, decl, raw, visible, admin, params))
       <==> OffsetKept(visible, params) && ReachesTheAsked(p, decl, raw, visible, params)
  {
    hide IsCollation, AnswersRestricted, Reaches, AskedAndVisible, PassesFilters, OffsetKept;
    if OffsetKept(visible, params) && ReachesTheAsked(p, decl, raw, visible, params) {
      forall t: Table ensures AnswersRestricted(p, t, sortable, decl, raw, visible, admin, params) {
        AnswersOne(p, t, sortable, decl, raw, visible, admin, params);
      }
    }
    if !OffsetKept(visible, params) {
      OffsetLost(p, map[], sortable, decl, raw, visible, admin, params);
    } else if !ReachesTheAsked(p, decl, raw, visible, params) {
      var id, row :| PassesFilters(p, id, row, params, raw, decl)
                     && Reaches(visible, params, id) != AskedAndVisible(visible, params, id);
      TotalsDiffer(p, id, row, sortable, decl, raw, visible, admin, params);
    }
  }

  lemma AnswersOne(p: Platform, t: Table, sortable: seq<string>, decl: Declarations, raw: map<string, string>,
                   visible: seq<string>, admin: bool, params: ListParams)
    requires IsCollation(p.collate) && OffsetKept(visible, params) && ReachesTheAsked(p, decl, raw, visible, params)
    ensures AnswersRestricted(p, t, sortable, decl, raw, visible, admin, params)
  {
    hide ListPageRequest, NarrowIds, ReadBack, WithIds, PageOf, Mediate, Matching, ListFilter, Reaches, AskedAndVisible, PassesFilters;
    var asked, ids := ListPageRequest(params), NarrowIds(params.ids, visible);
    var restricted, w := Restrict(t, visible), ListFilter(params, raw, decl);
    RestrictedCounted(p, t, visible, params, raw, decl);
    assert Matching(p, restricted, w) == Counted(p, t, visible, params, raw, decl);
    AnyIdsMediation(p, t, sortable, decl, raw, visible, admin, params);
    if ids == [] {
      NothingCounted(p, t, visible, params, raw, decl);
      EmptyMatching(p, restricted, sortable, asked, w);
      assert RowIds(EmptyPage(asked)) == [];
    } else {
      var narrow := WithIds(params, raw, decl, ReadBack(ids));
      CountedMatching(p, t, visible, params, raw, decl);
      PagesAgree(p, restricted, t, sortable, asked, w, narrow);
      PageMatches(p, t, sortable, asked, narrow);
      assert asked.(offset := Min(MAX_SAFE_INTEGER, asked.offset)) == asked;
      assert forall id | id in Matching(p, restricted, w) :: id in restricted;
    }
  }

  lemma OffsetLost(p: Platform, t: Table, sortable: seq<string>, decl: Declarations, raw: map<string, string>,
                   visible: seq<string>, admin: bool, params: ListParams)
    requires IsCollation(p.collate) && !OffsetKept(visible, params)
    ensures !AnswersRestricted(p, t, sortable, decl, raw, visible, admin, params)
  {
    hide ListPageRequest, NarrowIds, ReadBack, WithIds, Mediate, ListFilter, Ordered;
    AnyIdsMediation(p, t, sortable, decl, raw, visible, admin, params);
  }

  lemma TotalsDiffer(p: Platform, id: string, row: Row, sortable: seq<string>, decl: Declarations, raw: map<string, string>,
                     visible: seq<string>, admin: bool, params: ListParams)
    requires IsCollation(p.collate) && PassesFilters(p, id, row, params, raw, decl)
    ensures AnswersRestricted(p, map[id := row], sortable, decl, raw, visible, admin, params)
       ==> (Reaches(visible, params, id) <==> AskedAndVisible(visible, params, id))
  {
    hide ListPageRequest, PageOf, Mediated, Matching, ListFilter, Reaches, AskedAndVisible, PassesFilters, Counted;
    var t: Table := map[id := row];
    CountedOne(p, id, row, visible, params, raw, decl);
    AnswerCounts(p, t, sortable, decl, raw, visible, admin, params);
    RestrictedCounted(p, t, visible, params, raw, decl);
    var w := ListFilter(params, raw, decl);
    assert Matching(p, Restrict(t, visible), w) == if AskedAndVisible(visible, params, id) then {id} else {};
    PageMatches(p, Restrict(t, visible), sortable, ListPageRequest(params), w);
  }

  // --- where the two answers part --------------------------------------------------------------

  lemma BlankNarrows(asked: string, visible: seq<string>)
    requires Clean(visible) && IdsOf(Some(asked)) == []
    ensures NarrowIds(Some(asked), visible) == []
  {
    var parts := TrimAll(Split(asked, ','));
    forall id | id in parts ensures id !in visible {
      assert id == "" by { assert id !in IdsOf(Some(asked)); }
    }
    FilterNone(parts, id => id in visible);
  }

  /** Without ids the list filter is the other filters. */
  lemma BlankFilter(p: Platform, t: Table, params: ListParams, raw: map<string, string>, decl: Declarations)
    requires IdsOf(params.ids) == []
    ensures Matching(p, t, ListFilter(params, raw, decl)) == Matching(p, t, Some(Full(BaseFilter(params, raw, decl))))
  {
    hide Selects, AsText, ListFilter, BaseFilter, IdsOf;
    forall id | id in t
      ensures Selects(p.fold, AsText(p, id, t[id]), ListFilter(params, raw, decl))
         <==> Selects(p.fold, AsText(p, id, t[id]), Some(Full(BaseFilter(params, raw, decl))))
    {
      FilterSelects(p, AsText(p, id, t[id]), params, raw, decl);
    }
  }

  /** The visible rows that pass the caller's filters other than `ids`. */
  function VisibleMatches(p: Platform, t: Table, visible: seq<string>, params: ListParams, raw: map<string, string>,
                          decl: Declarations): set<string>
  {
    Matching(p, Restrict(t, visible), Some(Full(BaseFilter(params, raw, decl))))
  }

  /**
   * When the mediated answer is the list of the visible rows, exactly. An `ids` parameter of nothing but
   * blanks means "nothing" to the wrapper and "no filter" to the list; an offset past the safe integers
   * comes back clamped; nothing else makes a difference.
   */
  lemma MediatedExactly(p: Platform, t: Table, sortable: seq<string>, decl: Declarations, raw: map<string, string>,
                        visible: seq<string>, admin: bool, params: ListParams)
    requires IsCollation(p.collate) && Clean(visible)
    ensures var (outcome, _) := Mediate(GenericHandler(p, t, sortable, decl, raw), Only(visible), admin, params);
      outcome.Answer?
      && (SameAnswer(outcome.page, GenericList(p, Restrict(t, visible), sortable, decl, params, raw))
          <==> if IdsNotBlank(params) then
                 NarrowIds(params.ids, visible) == [] || ListPageRequest(params).offset <= MAX_SAFE_INTEGER
               else VisibleMatches(p, t, visible, params, raw, decl) == {})
  {
    hide Matching, ListFilter, ListPageRequest, BaseFilter, NarrowIds, Mediate, IdsOf, Ordered;
    ScopedMediation(p, t, sortable, decl, raw, visible, admin, params);
    var asked := ListPageRequest(params);
    var w := ListFilter(params, raw, decl);
    var restricted := Restrict(t, visible);
    if IdsNotBlank(params) {
      if NarrowIds(params.ids, visible) == [] {
        ScopedMatching(p, t, visible, params, raw, decl);
        BaseHasNoIds(params, raw, decl);
        NoIdsNoRows(p, t, BaseFilter(params, raw, decl).(ids := Some([])));
        EmptyMatching(p, restricted, sortable, asked, w);
      } else if asked.offset <= MAX_SAFE_INTEGER {
        MediatedIsRestricted(p, t, sortable, decl, raw, visible, admin, params);
      }
    } else {
      BlankNarrows(params.ids.value, visible);
      BlankFilter(p, restricted, params, raw, decl);
      OrderedListing(p, restricted, OrderTerm(asked.sortBy, sortable).0, asked.descending, w);
      if Matching(p, restricted, w) == {} { EmptyMatching(p, restricted, sortable, asked, w); }
    }
  }

  /** One visible id with a comma is read back as two, hidden ones. */
  lemma CommaSplitsAnId(params: ListParams)
    requires params.ids.None?
    ensures NarrowIds(params.ids, ["a,b"]) != [] && ReadBack(NarrowIds(params.ids, ["a,b"])) == ["a", "b"]
    ensures Reaches(["a,b"], params, "b")
  {
    assert Join(["a,b"], ',') == "a,b";
    assert ["a", "b"][1..] == ["b"] && Join(["a", "b"], ',') == "a,b";
    assert Trim("a") == "a" && Trim("b") == "b";
    JoinedIdsReadBack(["a", "b"]);
    hide IdsOf, Join;
    assert "b" in ReadBack(["a,b"]);
  }

  /**
   * Such an id, for a request that asks for nothing in particular: a hidden row called `b` turns the
   * first page into a defect and is counted in the total of every later one.
   */
  lemma HiddenRowCounted(p: Platform, sortable: seq<string>, decl: Declarations, admin: bool, params: ListParams)
    requires IsCollation(p.collate) && params.ids.None? && AskedSearch(params, decl) == None
    ensures var row := Row("", 0, false, 1, map[]);
      var before := Mediated(p, map[], sortable, decl, map[], ["a,b"], admin, params).0;
      var after := Mediated(p, map["b" := row], sortable, decl, map[], ["a,b"], admin, params).0;
      && before.Answer? && before.page.total == 0
      && if ListPageRequest(params).offset == 0 then after == Defect
         else after.Answer? && after.page.rows == [] && after.page.total == 1
  {
    var row := Row("", 0, false, 1, map[]);
    var raw: map<string, string>, visible := map[], ["a,b"];
    CommaSplitsAnId(params);
    NoneAsked(decl.filterFields, raw);
    assert BaseFilter(params, raw, decl) == NO_FILTER;
    LivePasses(p, "b", row, params, raw, decl);
    hide ListPageRequest, NarrowIds, ReadBack, Mediate, Reaches, PassesFilters, Counted, AskedSearch, BaseFilter;
    CountedOne(p, "b", row, visible, params, raw, decl);
    AnswerCounts(p, map[], sortable, decl, raw, visible, admin, params);
    AnyIdsMediation(p, map["b" := row], sortable, decl, raw, visible, admin, params);
    CountedMatching(p, map["b" := row], visible, params, raw, decl);
    var asked := ListPageRequest(params);
    OneRowPage(p, "b", row, sortable, asked.(offset := Min(MAX_SAFE_INTEGER, asked.offset)), WithIds(params, raw, decl, ["a", "b"]));
    assert "b" !in visible;
  }

  lemma LivePasses(p: Platform, id: string, row: Row, params: ListParams, raw: map<string, string>, decl: Declarations)
    requires BaseFilter(params, raw, decl) == NO_FILTER && !row.deleted
    ensures PassesFilters(p, id, row, params, raw, decl)
  {
    SelectsMeaning(p.fold, AsText(p, id, row), Some(Full(NO_FILTER)));
    hide Selects;
    assert Reads(p.fold, AsText(p, id, row), NO_FILTER);
  }

  lemma NoneAsked(fields: seq<string>, raw: map<string, string>)
    requires raw == map[]
    ensures AskedPairs(fields, raw) == []
  {
    if AskedPairs(fields, raw) != [] { AskedPairsExactly(fields, raw, AskedPairs(fields, raw)[0]); }
  }

  /** The page of a table whose one row matches: the row when the page starts there, and its count on any page. */
  lemma OneRowPage(p: Platform, id: string, row: Row, sortable: seq<string>, r: PageRequest, w: Option<Where>)
    requires IsCollation(p.collate) && r.offset >= 0 && r.limit >= 1 && Matching(p, map[id := row], w) == {id}
    ensures var page := PageOf(p, map[id := row], sortable, r, w);
      page.total == 1 && RowIds(page) == if r.offset == 0 then [id] else []
  {
    hide Matching, Ordered;
    var t: Table := map[id := row];
    var term := OrderTerm(r.sortBy, sortable).0;
    OrderedListing(p, t, term, r.descending, w);
    var l := Ordered(p, t, term, r.descending, w);
    assert |l| == 1 && l[0] in l && l == [id];
  }
}
