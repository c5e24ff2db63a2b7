/**
 * One page of a table: filter, count, order, cut. The results are about whole listings: the pages
 * of an unchanged table are exactly its ordered matching rows, and a listing sorted by a declared
 * field is sorted by the values stored there.
 */
module Pages {
  import opened Wrappers
  import opened JsonValues
  import opened SortKeys
  import opened Listings
  import opened Filters
  import opened Pagination
  import opened Rows
  import Strings

  datatype Page = Page(rows: seq<View>, total: int, offset: int, limit: int, sortedBy: string)

  function Matching(p: Platform, table: Table, w: Option<Where>): (ids: set<string>)
    ensures ids <= table.Keys
  {
    set id | id in table && Selects(p.fold, AsText(p, id, table[id]), w)
  }

  /** The ordered ids of every matching live row, before any page is cut. */
  function Ordered(p: Platform, table: Table, term: SortTerm, descending: bool, w: Option<Where>): (l: seq<string>)
    requires IsCollation(p.collate)
    ensures forall id | id in l :: id in table
  {
    RowOrderTotal(p, table, term, descending);
    Listing(RowOrder(p, table, term, descending), Matching(p, table, w))
  }

  function Views(table: Table, ids: seq<string>): (views: seq<View>)
    requires forall id | id in ids :: id in table
    ensures |views| == |ids|
  {
    seq(|ids|, i requires 0 <= i < |ids| => Decode(ids[i], table[ids[i]]))
  }

  /** LIMIT and OFFSET */
  function Cut<T>(l: seq<T>, offset: nat, limit: nat): (part: seq<T>)
    ensures forall x | x in part :: x in l
  {
    if offset >= |l| then [] else if offset + limit >= |l| then l[offset..] else l[offset..offset + limit]
  }

  function PageOf(p: Platform, table: Table, sortable: seq<string>, r: PageRequest, w: Option<Where>): Page
    requires IsCollation(p.collate) && r.offset >= 0 && r.limit >= 0
  {
    var l := Ordered(p, table, OrderTerm(r.sortBy, sortable).0, r.descending, w);
    Page(Views(table, Cut(l, r.offset, r.limit)), |l|, r.offset, r.limit, OrderTerm(r.sortBy, sortable).1)
  }

  /** The generic list handler: one page request and one filter, both read off the query. */
  function GenericList(p: Platform, table: Table, sortable: seq<string>, decl: Declarations,
                       params: ListParams, raw: map<string, string>): Page
    requires IsCollation(p.collate)
  {
    PageOf(p, table, sortable, ListPageRequest(params), ListFilter(params, raw, decl))
  }

  // --- walking the pages -----------------------------------------------------------------------

  function PageCount(total: nat, limit: nat): nat
    requires limit > 0
  {
    (total + limit - 1) / limit
  }

  /** `n` pages of `limit` rows have room for `total`. */
  predicate Reaches(n: nat, limit: nat, total: nat) {
    total <= n * limit
  }

  /** The query for page `k` (1-based), everything else as asked. */
  function AtPage(params: ListParams, k: nat): ListParams {
    params.(page := Some(Finite(k as real)))
  }

  function AllPages(p: Platform, table: Table, sortable: seq<string>, decl: Declarations,
                    params: ListParams, raw: map<string, string>, k: nat): seq<View>
    requires IsCollation(p.collate)
  {
    if k == 0 then []
    else
      AllPages(p, table, sortable, decl, params, raw, k - 1)
      + GenericList(p, table, sortable, decl, AtPage(params, k), raw).rows
  }

  /** Asking for page `k` moves the offset and nothing else. */
  lemma AtPageRequest(params: ListParams, k: nat)
    requires 1 <= k <= MAX_SAFE_INTEGER
    ensures var r := ListPageRequest(AtPage(params, k));
      && r.limit == ListPageRequest(params).limit
      && r.sortBy == ListPageRequest(params).sortBy
      && r.descending == ListPageRequest(params).descending
      && r.offset == PageOffset(k, r.limit)
  {
    assert Trunc(k as real) == k;
    assert FiniteInt(Some(Finite(k as real)), 1) == k;
  }

  lemma OrderedListing(p: Platform, table: Table, term: SortTerm, descending: bool, w: Option<Where>)
    requires IsCollation(p.collate)
    ensures IsListing(RowOrder(p, table, term, descending), Matching(p, table, w), Ordered(p, table, term, descending, w))
  {
    RowOrderTotal(p, table, term, descending);
  }

  /** The listing a query walks, whichever page it asks for. */
  function Walked(p: Platform, table: Table, sortable: seq<string>, decl: Declarations,
                  params: ListParams, raw: map<string, string>): (l: seq<string>)
    requires IsCollation(p.collate)
    ensures forall id | id in l :: id in table
  {
    var r := ListPageRequest(params);
    Ordered(p, table, OrderTerm(r.sortBy, sortable).0, r.descending, ListFilter(params, raw, decl))
  }

  /** Page `k` of a listing, and the first `k` pages one after the other. */
  function PageRows(table: Table, l: seq<string>, limit: nat, k: nat): seq<View>
    requires k >= 1 && limit >= 1 && forall id | id in l :: id in table
  {
    Views(table, Cut(l, PageOffset(k, limit), limit))
  }

  function FirstPages(table: Table, l: seq<string>, limit: nat, k: nat): seq<View>
    requires limit >= 1 && forall id | id in l :: id in table
  {
    if k == 0 then [] else FirstPages(table, l, limit, k - 1) + PageRows(table, l, limit, k)
  }

  lemma RequestedPage(p: Platform, table: Table, sortable: seq<string>, r: PageRequest, r': PageRequest, w: Option<Where>, k: nat)
    requires IsCollation(p.collate) && k >= 1 && r.offset >= 0 && r.limit >= 0
    requires r'.limit == r.limit && r'.sortBy == r.sortBy && r'.descending == r.descending
    requires r.limit >= 1 && r'.offset == PageOffset(k, r.limit)
    ensures PageOf(p, table, sortable, r', w).rows
         == PageRows(table, Ordered(p, table, OrderTerm(r.sortBy, sortable).0, r.descending, w), r.limit, k)
  {
  }

  lemma GenericPage(p: Platform, table: Table, sortable: seq<string>, decl: Declarations,
                    params: ListParams, raw: map<string, string>, k: nat)
    requires IsCollation(p.collate) && 1 <= k <= MAX_SAFE_INTEGER
    ensures GenericList(p, table, sortable, decl, AtPage(params, k), raw).rows
         == PageRows(table, Walked(p, table, sortable, decl, params, raw), ListPageRequest(params).limit, k)
  {
    AtPageRequest(params, k);
    var w := ListFilter(params, raw, decl);
    assert ListFilter(AtPage(params, k), raw, decl) == w;
    RequestedPage(p, table, sortable, ListPageRequest(params), ListPageRequest(AtPage(params, k)), w, k);
  }

  lemma CutSteps<T>(l: seq<T>, offset: nat, limit: nat)
    ensures Cut(l, 0, offset) + Cut(l, offset, limit) == Cut(l, 0, offset + limit)
  {
  }

  /** The first k pages are the first k * limit rows of the listing. */
  lemma {:induction false} FirstPagesPrefix(table: Table, l: seq<string>, limit: nat, k: nat)
    requires limit >= 1 && forall id | id in l :: id in table
    ensures FirstPages(table, l, limit, k) == Views(table, Cut(l, 0, k * limit))
  {
    if k > 0 {
      hide Views, Cut;
      FirstPagesPrefix(table, l, limit, k - 1);
      var start := PageOffset(k, limit);
      CutSteps(l, start, limit);
      ViewsConcat(table, Cut(l, 0, start), Cut(l, start, limit));
      assert k * limit == start + limit;
    } else {
      assert k * limit == 0;
      assert Cut(l, 0, 0) == [];
    }
  }

  lemma {:induction false} AllPagesAreFirst(p: Platform, table: Table, sortable: seq<string>, decl: Declarations,
                         params: ListParams, raw: map<string, string>, k: nat)
    requires IsCollation(p.collate) && k <= MAX_SAFE_INTEGER
    ensures AllPages(p, table, sortable, decl, params, raw, k)
         == FirstPages(table, Walked(p, table, sortable, decl, params, raw), ListPageRequest(params).limit, k)
  {
    hide GenericList, Walked, PageRows, ListPageRequest;
    if k > 0 {
      AllPagesAreFirst(p, table, sortable, decl, params, raw, k - 1);
      GenericPage(p, table, sortable, decl, params, raw, k);
    }
  }

  lemma ViewsConcat(table: Table, a: seq<string>, b: seq<string>)
    requires forall id | id in a :: id in table
    requires forall id | id in b :: id in table
    ensures forall id | id in a + b :: id in table
    ensures Views(table, a + b) == Views(table, a) + Views(table, b)
  {
  }

  /**
   * Pages 1 to ceil(total / limit) hold every matching live row exactly once, in the listing's
   * order, and the page after them is empty; for any filter, sort and asked size.
   */
  lemma PagesCoverListing(p: Platform, table: Table, sortable: seq<string>, decl: Declarations,
                          params: ListParams, raw: map<string, string>)
    requires IsCollation(p.collate)
    requires |Matching(p, table, ListFilter(params, raw, decl))| < MAX_SAFE_INTEGER
    ensures var l := Walked(p, table, sortable, decl, params, raw);
      var n := PageCount(|l|, ListPageRequest(params).limit);
      && AllPages(p, table, sortable, decl, params, raw, n) == Views(table, l)
      && GenericList(p, table, sortable, decl, AtPage(params, n + 1), raw).rows == []
      && (n > 0 ==> GenericList(p, table, sortable, decl, AtPage(params, n), raw).rows != [])
  {
    hide GenericList, Walked, PageRows, AllPages, FirstPages, Views, PageCount, Reaches, ListPageRequest;
    var limit := ListPageRequest(params).limit;
    var l := Walked(p, table, sortable, decl, params, raw);
    var n := PageCount(|l|, limit);
    WalkedOnce(p, table, sortable, decl, params, raw);
    PageCountBounds(|l|, limit);
    AllPagesAreFirst(p, table, sortable, decl, params, raw, n);
    GenericPage(p, table, sortable, decl, params, raw, n + 1);
    CoveringPages(table, l, limit, n);
    if n > 0 { LastPageHolds(p, table, sortable, decl, params, raw, n); }
  }

  /** The listing holds each matching live row once, and nothing else. */
  lemma WalkedOnce(p: Platform, table: Table, sortable: seq<string>, decl: Declarations,
                   params: ListParams, raw: map<string, string>)
    requires IsCollation(p.collate)
    ensures var l := Walked(p, table, sortable, decl, params, raw);
      var matching := Matching(p, table, ListFilter(params, raw, decl));
      && |l| == |matching|
      && (forall id :: id in l <==> id in matching)
      && (forall i, j | 0 <= i < j < |l| :: l[i] != l[j])
  {
    var r := ListPageRequest(params);
    var term := OrderTerm(r.sortBy, sortable).0;
    OrderedListing(p, table, term, r.descending, ListFilter(params, raw, decl));
    ListedOnce(p, table, term, r.descending, Walked(p, table, sortable, decl, params, raw));
  }

  /** A page holds exactly the rows of a listing from its offset on, up to its limit, and counts the whole listing. */
  predicate Slices(table: Table, l: seq<string>, page: Page)
    requires forall id | id in l :: id in table
  {
    && page.offset >= 0 && page.total == |l|
    && |page.rows| == Max(0, Min(page.limit, |l| - page.offset))
    && forall i | 0 <= i < |page.rows| && page.offset + i < |l| ::
         page.rows[i] == Decode(l[page.offset + i], table[l[page.offset + i]])
  }

  /** The answer to any query: its slice of the listing, where and how much it was asked for, and what it is sorted by. */
  lemma PageIsSlice(p: Platform, table: Table, sortable: seq<string>, decl: Declarations,
                    params: ListParams, raw: map<string, string>)
    requires IsCollation(p.collate)
    ensures var page, r := GenericList(p, table, sortable, decl, params, raw), ListPageRequest(params);
      && Slices(table, Walked(p, table, sortable, decl, params, raw), page)
      && page.offset == r.offset && page.limit == r.limit
      && page.sortedBy == match r.sortBy
         case Some(f) => if f in {"id", "type", "createdAt", "deleted"} || f in sortable then f else "createdAt"
         case None => "createdAt"
  {
    hide ListPageRequest, ListFilter, Ordered, IsCollation, Slices, Cut, Views;
    AskedNonempty(params);
    CutSlices(table, Walked(p, table, sortable, decl, params, raw), GenericList(p, table, sortable, decl, params, raw));
  }

  lemma CutSlices(table: Table, l: seq<string>, page: Page)
    requires page.offset >= 0 && page.limit >= 0 && page.total == |l| && forall id | id in l :: id in table
    requires page.rows == Views(table, Cut(l, page.offset, page.limit))
    ensures Slices(table, l, page)
  {
    hide Decode;
    var part := Cut(l, page.offset, page.limit);
    forall i | 0 <= i < |part| ensures page.offset + i < |l| && part[i] == l[page.offset + i] { }
  }

  lemma AskedNonempty(params: ListParams)
    ensures ListPageRequest(params).sortBy != Some("")
  {
  }

  lemma CoveringPages(table: Table, l: seq<string>, limit: nat, n: nat)
    requires limit >= 1 && forall id | id in l :: id in table
    requires Reaches(n, limit, |l|)
    ensures FirstPages(table, l, limit, n) == Views(table, l)
    ensures PageRows(table, l, limit, n + 1) == []
  {
    FirstPagesPrefix(table, l, limit, n);
    assert Cut(l, 0, n * limit) == l;
  }

  lemma LastPageHolds(p: Platform, table: Table, sortable: seq<string>, decl: Declarations,
                      params: ListParams, raw: map<string, string>, n: nat)
    requires IsCollation(p.collate) && 1 <= n <= MAX_SAFE_INTEGER
    ensures n == PageCount(|Walked(p, table, sortable, decl, params, raw)|, ListPageRequest(params).limit)
      ==> GenericList(p, table, sortable, decl, AtPage(params, n), raw).rows != []
  {
    hide GenericList, Walked, PageRows, ListPageRequest, PageCount;
    GenericPage(p, table, sortable, decl, params, raw, n);
    var l, limit := Walked(p, table, sortable, decl, params, raw), ListPageRequest(params).limit;
    if n == PageCount(|l|, limit) { RowsOnLast(table, l, limit, n); }
  }

  lemma RowsOnLast(table: Table, l: seq<string>, limit: nat, n: nat)
    requires limit >= 1 && n >= 1 && n == PageCount(|l|, limit) && forall id | id in l :: id in table
    ensures PageRows(table, l, limit, n) != []
  {
    Quotient(|l| + limit - 1, n, limit);
    assert PageOffset(n, limit) == n * limit - limit;
  }

  lemma ListedOnce(p: Platform, table: Table, term: SortTerm, descending: bool, l: seq<string>)
    requires IsCollation(p.collate)
    requires Sorted(RowOrder(p, table, term, descending), l)
    ensures forall i, j | 0 <= i < j < |l| :: l[i] != l[j]
  {
    RowOrderTotal(p, table, term, descending);
  }

  lemma PageCountBounds(total: nat, limit: nat)
    requires limit > 0
    ensures Reaches(PageCount(total, limit), limit, total)
    ensures PageCount(total, limit) <= total
  {
    Quotient(total + limit - 1, PageCount(total, limit), limit);
    if total > 0 {
      SumBelowProduct(total, limit);
      SmallerFactor(PageCount(total, limit), total, limit);
    }
  }

  lemma {:induction false} SumBelowProduct(n: nat, limit: nat)
    requires n > 0 && limit > 0
    ensures n + limit - 1 <= n * limit
  {
    if n > 1 {
      SumBelowProduct(n - 1, limit);
      assert n * limit == (n - 1) * limit + limit;
    }
  }

  lemma Quotient(q: nat, n: nat, limit: nat)
    requires limit > 0 && n == q / limit
    ensures q - limit < n * limit <= q
  {
  }

  lemma SmallerFactor(n: nat, m: nat, limit: nat)
    requires limit > 0 && n * limit <= m * limit
    ensures n <= m
  {
  }

  // --- what the order means --------------------------------------------------------------------

  /** Every stored key is the key of the value stored beside it. */
  ghost predicate Fresh(p: Platform, table: Table, sortable: seq<string>) {
    forall id | id in table :: FreshBody(p.rules, table[id].body, sortable)
  }

  /** missing < null < false < true < numbers < text by its first bytes, then by id */
  predicate ValueBefore(p: Platform, table: Table, field: string, a: string, b: string)
    requires a in table && b in table
  {
    var x, y := Get(table[a].body, field), Get(table[b].body, field);
    ValueLess(p.rules, x, y) || (!ValueLess(p.rules, y, x) && p.collate(a, b))
  }

  lemma FreshRowOrder(p: Platform, table: Table, sortable: seq<string>, field: string, a: string, b: string)
    requires Fresh(p, table, sortable) && field in sortable && a in table && b in table
    ensures RowOrder(p, table, ByKey(field), false)(a, b) <==> ValueBefore(p, table, field, a, b)
    ensures RowOrder(p, table, ByKey(field), true)(a, b) <==> RowOrder(p, table, ByKey(field), false)(b, a)
  {
    var x, y := table[a].body, table[b].body;
    FreshStoredKey(p.rules, x, sortable, field);
    FreshStoredKey(p.rules, y, sortable, field);
    SortKeyOrder(p.rules, Get(x, field), Get(y, field));
    SortKeyOrder(p.rules, Get(y, field), Get(x, field));
  }

  /** The ORDER BY of the other direction is the opposite order, whatever it sorts by. */
  lemma DirectionsAreOpposite(p: Platform, table: Table, term: SortTerm, a: string, b: string)
    ensures RowOrder(p, table, term, true)(a, b) <==> RowOrder(p, table, term, false)(b, a)
  {
  }

  /** The descending listing is the ascending one read backwards. */
  lemma DescendingReverses(p: Platform, table: Table, term: SortTerm, w: Option<Where>)
    requires IsCollation(p.collate)
    ensures Ordered(p, table, term, true, w) == Reversed(Ordered(p, table, term, false, w))
  {
    RowOrderTotal(p, table, term, true);
    RowOrderTotal(p, table, term, false);
    forall a, b ensures RowOrder(p, table, term, true)(a, b) == RowOrder(p, table, term, false)(b, a) {
      DirectionsAreOpposite(p, table, term, a, b);
    }
    ListingReversed(RowOrder(p, table, term, false), RowOrder(p, table, term, true), Matching(p, table, w));
  }

  /** What the asked column says of two rows listed one before the other, ties by id; creation time stands in for a bad one. */
  predicate MetaBefore(p: Platform, table: Table, sortable: seq<string>, sortBy: Option<string>, x: string, y: string)
    requires x in table && y in table
  {
    var a, b := table[x], table[y];
    var older := a.createdAt < b.createdAt || (a.createdAt == b.createdAt && p.collate(x, y));
    match sortBy
    case None => older
    case Some(f) =>
      if f == "id" then p.collate(x, y)
      else if f == "type" then p.collate(a.kind, b.kind) || (a.kind == b.kind && p.collate(x, y))
      else if f == "deleted" then (!a.deleted && b.deleted) || (a.deleted == b.deleted && p.collate(x, y))
      else f == "createdAt" || f !in sortable ==> older
  }

  /** A listing asked for by a meta column, or by nothing or an undeclared field, runs through that column. */
  lemma SortedByMeta(p: Platform, table: Table, sortable: seq<string>, sortBy: Option<string>, w: Option<Where>)
    requires IsCollation(p.collate)
    ensures var l := Ordered(p, table, OrderTerm(sortBy, sortable).0, false, w);
      forall i, j | 0 <= i < j < |l| :: MetaBefore(p, table, sortable, sortBy, l[i], l[j])
  {
    hide Ordered, Matching, IsCollation;
    var term := OrderTerm(sortBy, sortable).0;
    var l := Ordered(p, table, term, false, w);
    OrderedListing(p, table, term, false, w);
    forall i, j | 0 <= i < j < |l| ensures MetaBefore(p, table, sortable, sortBy, l[i], l[j]) {
      assert l[i] in l && l[j] in l;
      SortedAt(RowOrder(p, table, term, false), l, i, j);
      CollationConnected(p.collate, table[l[i]].kind, table[l[j]].kind);
    }
  }

  lemma CollationConnected(lt: Order, a: string, b: string)
    requires IsCollation(lt)
    ensures a == b || lt(a, b) || lt(b, a)
  {
  }

  /** With fresh keys, a listing sorted by a declared field runs through its values in order. */
  lemma SortedByValue(p: Platform, table: Table, sortable: seq<string>, field: string, w: Option<Where>)
    requires IsCollation(p.collate) && Fresh(p, table, sortable) && field in sortable
    ensures var l := Ordered(p, table, ByKey(field), false, w);
      forall i, j | 0 <= i < j < |l| :: ValueBefore(p, table, field, l[i], l[j])
  {
    hide Ordered, Matching, ValueBefore, Fresh, IsCollation;
    var l := Ordered(p, table, ByKey(field), false, w);
    OrderedListing(p, table, ByKey(field), false, w);
    forall i, j | 0 <= i < j < |l| ensures ValueBefore(p, table, field, l[i], l[j]) {
      assert l[i] in l && l[j] in l;
      SortedAt(RowOrder(p, table, ByKey(field), false), l, i, j);
      FreshRowOrder(p, table, sortable, field, l[i], l[j]);
    }
  }

  /** One row may come before another in a page sorted by a field: by the values shown there, then by id. */
  predicate ViewBefore(p: Platform, field: string, a: View, b: View) {
    var x, y := Get(a.body, field), Get(b.body, field);
    ValueLess(p.rules, x, y) || (!ValueLess(p.rules, y, x) && p.collate(a.id, b.id))
  }

  lemma ViewsKeepOrder(p: Platform, table: Table, field: string, a: string, b: string)
    requires a in table && b in table && field != SORT_KEYS
    ensures ViewBefore(p, field, Decode(a, table[a]), Decode(b, table[b])) <==> ValueBefore(p, table, field, a, b)
  {
  }

  /** The order of two listed rows, in the direction asked for. */
  predicate InDirection(p: Platform, field: string, descending: bool, a: View, b: View) {
    if descending then ViewBefore(p, field, b, a) else ViewBefore(p, field, a, b)
  }

  lemma SortedEitherWay(p: Platform, table: Table, sortable: seq<string>, field: string, w: Option<Where>,
                        descending: bool, i: nat, j: nat)
    requires IsCollation(p.collate) && SORT_KEYS !in sortable && Fresh(p, table, sortable) && field in sortable
    ensures var l := Ordered(p, table, ByKey(field), descending, w);
      i < j < |l| ==> InDirection(p, field, descending, Decode(l[i], table[l[i]]), Decode(l[j], table[l[j]]))
  {
    hide Ordered, Fresh, IsCollation, ValueBefore, ViewBefore, Decode;
    var up, l := Ordered(p, table, ByKey(field), false, w), Ordered(p, table, ByKey(field), descending, w);
    if !(i < j < |l|) { return; }
    SortedByValue(p, table, sortable, field, w);
    assert l[i] in l && l[j] in l;
    if descending {
      DescendingReverses(p, table, ByKey(field), w);
      assert l[i] == up[|l| - 1 - i] && l[j] == up[|l| - 1 - j];
      ViewsKeepOrder(p, table, field, l[j], l[i]);
    } else {
      ViewsKeepOrder(p, table, field, l[i], l[j]);
    }
  }

  /** A row of a page is the listed row that many places after the offset. */
  lemma PageRowAt(p: Platform, table: Table, sortable: seq<string>, r: PageRequest, w: Option<Where>, i: nat)
    requires IsCollation(p.collate) && r.offset >= 0 && r.limit >= 0
    ensures var l, rows := Ordered(p, table, OrderTerm(r.sortBy, sortable).0, r.descending, w), PageOf(p, table, sortable, r, w).rows;
      i < |rows| ==> r.offset + i < |l| && rows[i] == Decode(l[r.offset + i], table[l[r.offset + i]])
  {
    hide Ordered, Decode, IsCollation;
    var l := Ordered(p, table, OrderTerm(r.sortBy, sortable).0, r.descending, w);
    var c := Cut(l, r.offset, r.limit);
    if i < |c| { assert c[i] == l[r.offset + i] && l[r.offset + i] in l; }
  }

  /**
   * A request sorted by a declared field, on a table with fresh keys: the answer says it was sorted by that
   * field, and its rows run through the values of that field, ties by id, in the direction asked for.
   */
  lemma SortedPage(p: Platform, table: Table, sortable: seq<string>, decl: Declarations, params: ListParams,
                   raw: map<string, string>, field: string)
    requires IsCollation(p.collate) && SORT_KEYS !in sortable && Fresh(p, table, sortable)
    requires field in sortable && field !in META_COLUMNS && ListPageRequest(params).sortBy == Some(field)
    ensures var page := GenericList(p, table, sortable, decl, params, raw);
      && page.sortedBy == field
      && forall i, j | 0 <= i < j < |page.rows| ::
           InDirection(p, field, ListPageRequest(params).descending, page.rows[i], page.rows[j])
  {
    hide Ordered, ListPageRequest, ListFilter, Fresh, IsCollation, InDirection, Decode, PageOf, OrderTerm;
    var r, w := ListPageRequest(params), ListFilter(params, raw, decl);
    DeclaredTerm(params, sortable, field);
    var page := PageOf(p, table, sortable, r, w);
    assert page.sortedBy == field by { PageSaysOrder(p, table, sortable, r, w); }
    forall i, j | 0 <= i < j < |page.rows|
      ensures InDirection(p, field, r.descending, page.rows[i], page.rows[j])
    {
      PageRowAt(p, table, sortable, r, w, i);
      PageRowAt(p, table, sortable, r, w, j);
      SortedEitherWay(p, table, sortable, field, w, r.descending, r.offset + i, r.offset + j);
    }
  }

  /** No place, size, order or ids are asked for; a search and field filters may be. */
  predicate AskedForNothing(params: ListParams) {
    && params.page.None? && params.offset.None? && params.pageSize.None? && params.limit.None?
    && params.sort.None? && params.sortBy.None? && params.descending.None? && params.ids.None?
  }

  /** Asked for nothing but filters, the answer is the first 25 rows of the listing, oldest first, ties by id. */
  lemma PlainList(p: Platform, table: Table, sortable: seq<string>, decl: Declarations, params: ListParams, raw: map<string, string>)
    requires IsCollation(p.collate) && AskedForNothing(params)
    ensures var page := GenericList(p, table, sortable, decl, params, raw);
      && Slices(table, Walked(p, table, sortable, decl, params, raw), page)
      && page.offset == 0 && page.limit == 25 && page.sortedBy == "createdAt"
      && forall i, j | 0 <= i < j < |page.rows| :: Older(p, page.rows[i], page.rows[j])
  {
    PlainRequest(params);
    hide ListPageRequest, ListFilter, Ordered, GenericList, IsCollation, Walked, Slices, OrderTerm, Older;
    PageIsSlice(p, table, sortable, decl, params, raw);
    WalkedFrom(p, table, sortable, decl, params, raw);
    SortedByMeta(p, table, sortable, None, ListFilter(params, raw, decl));
    OldestFirst(p, table, sortable, Walked(p, table, sortable, decl, params, raw), GenericList(p, table, sortable, decl, params, raw));
  }

  predicate Older(p: Platform, a: View, b: View) {
    a.createdAt < b.createdAt || (a.createdAt == b.createdAt && p.collate(a.id, b.id))
  }

  lemma OldestFirst(p: Platform, table: Table, sortable: seq<string>, l: seq<string>, page: Page)
    requires forall id | id in l :: id in table
    requires Slices(table, l, page)
    requires forall i, j | 0 <= i < j < |l| :: MetaBefore(p, table, sortable, None, l[i], l[j])
    ensures forall i, j | 0 <= i < j < |page.rows| :: Older(p, page.rows[i], page.rows[j])
  {
    forall i, j | 0 <= i < j < |page.rows| ensures Older(p, page.rows[i], page.rows[j]) {
      assert MetaBefore(p, table, sortable, None, l[page.offset + i], l[page.offset + j]);
    }
  }

  lemma WalkedFrom(p: Platform, table: Table, sortable: seq<string>, decl: Declarations, params: ListParams, raw: map<string, string>)
    requires IsCollation(p.collate)
    ensures var r := ListPageRequest(params);
      Walked(p, table, sortable, decl, params, raw)
        == Ordered(p, table, OrderTerm(r.sortBy, sortable).0, r.descending, ListFilter(params, raw, decl))
  {
  }

  lemma PlainRequest(params: ListParams)
    requires AskedForNothing(params)
    ensures ListPageRequest(params) == PageRequest(0, 25, None, false)
  {
    AskedOffset(params);
    AskedSize(params);
    assert IdsOf(None) == [] by {
      assert Strings.Split("", ',') == [""] && Strings.TrimAll([""]) == [""];
    }
  }

  lemma DeclaredTerm(params: ListParams, sortable: seq<string>, field: string)
    requires field in sortable && field !in META_COLUMNS && ListPageRequest(params).sortBy == Some(field)
    ensures OrderTerm(ListPageRequest(params).sortBy, sortable) == (ByKey(field), field)
  {
  }

  lemma PageSaysOrder(p: Platform, table: Table, sortable: seq<string>, r: PageRequest, w: Option<Where>)
    requires IsCollation(p.collate) && r.offset >= 0 && r.limit >= 0
    ensures PageOf(p, table, sortable, r, w).sortedBy == OrderTerm(r.sortBy, sortable).1
  {
    hide Ordered, IsCollation;
  }

  /** Asked with `:desc`, a query walks exactly the reverse of the list it walks without. */
  lemma DirectionReverses(p: Platform, table: Table, sortable: seq<string>, decl: Declarations, params: ListParams,
                          raw: map<string, string>, field: string)
    requires IsCollation(p.collate) && field != "" && ':' !in field
    ensures Walked(p, table, sortable, decl, params.(sort := Some(field + ":desc")), raw)
         == Reversed(Walked(p, table, sortable, decl, params.(sort := Some(field)), raw))
  {
    var up, down := params.(sort := Some(field)), params.(sort := Some(field + ":desc"));
    hide ListPageRequest, Ordered, AskedPairs, IdsOf, NameShaped;
    assert field + ":" + "desc" == field + ":desc";
    AskedPlace(up, field, "desc");
    AskedPlace(down, field, "desc");
    assert ListFilter(up, raw, decl) == ListFilter(down, raw, decl);
    DescendingReverses(p, table, OrderTerm(ListPageRequest(up).sortBy, sortable).0, ListFilter(up, raw, decl));
  }
}
