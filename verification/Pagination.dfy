/** Page requests: the numbers of a query string normalised to an offset and a capped limit. */
module Pagination {
  import opened Wrappers
  import opened Strings
  import opened Like
  import opened Filters

  const DEFAULT_LIMIT := 25
  const MAX_LIMIT := 200
  const MAX_SAFE_INTEGER := 0x1F_FFFF_FFFF_FFFF

  /** A number as JavaScript parses one from text. */
  datatype JsNumber = NaN | Infinite(negative: bool) | Finite(v: real)

  datatype PageRequest = PageRequest(offset: int, limit: int, sortBy: Option<string>, descending: bool)

  function Trunc(v: real): int {
    if v >= 0.0 then v.Floor else -((-v).Floor)
  }

  function Min(a: int, b: int): int { if a < b then a else b }
  function Max(a: int, b: int): int { if a < b then b else a }

  function FiniteInt(value: Option<JsNumber>, fallback: int): int {
    match value
    case Some(Finite(v)) => Min(MAX_SAFE_INTEGER, Max(-MAX_SAFE_INTEGER, Trunc(v)))
    case _ => fallback
  }

  predicate NameStart(c: char) { 'A' <= c <= 'Z' || 'a' <= c <= 'z' || c == '_' }
  predicate NameChar(c: char) { NameStart(c) || '0' <= c <= '9' }

  predicate FieldName(s: string) {
    s != "" && NameStart(s[0]) && forall c | c in s :: NameChar(c)
  }

  /** Rows before page `page`, 1-based, when each page holds `limit`. */
  function PageOffset(page: int, limit: int): (offset: int)
    requires page >= 1 && limit >= 1
    ensures offset >= 0
  {
    (page - 1) * limit
  }

  /** The offset is derived from the capped limit; the limit always lies between 1 and the cap. */
  function Normalise(page: Option<JsNumber>, offset: Option<JsNumber>, limit: Option<JsNumber>,
                     sortBy: Option<string>, descending: bool): (r: PageRequest)
    ensures 1 <= r.limit <= MAX_LIMIT && 0 <= r.offset
    ensures r.sortBy.Some? ==> r.sortBy == sortBy && FieldName(r.sortBy.value)
  {
    var limit' := Min(MAX_LIMIT, Max(1, FiniteInt(limit, DEFAULT_LIMIT)));
    var offset' := if page.Some? then PageOffset(Max(1, FiniteInt(page, 1)), limit') else Max(0, FiniteInt(offset, 0));
    PageRequest(offset', limit', if sortBy.Some? && FieldName(sortBy.value) then sortBy else None, descending)
  }

  // --- the list query --------------------------------------------------------------------------

  /** The fixed half of a list query, `None` where the caller said nothing. */
  datatype ListParams = ListParams(
    offset: Option<JsNumber>,
    limit: Option<JsNumber>,
    sortBy: Option<string>,
    descending: Option<bool>,
    page: Option<JsNumber>,
    pageSize: Option<JsNumber>,
    sort: Option<string>,
    q: Option<string>,
    ids: Option<string>)

  /** What a cube's manifest lets a caller search and filter by. */
  datatype Declarations = Declarations(searchFields: seq<string>, filterFields: seq<string>)

  /** Comma-separated ids, trimmed, blanks dropped. */
  function IdsOf(raw: Option<string>): seq<string> {
    Filter(TrimAll(Split(raw.GetOr(""), ',')), s => s != "")
  }

  function OrElse<T>(a: Option<T>, b: Option<T>): Option<T> {
    if a.Some? then a else b
  }

  function ListPageRequest(p: ListParams): (r: PageRequest)
    ensures 1 <= r.limit <= MAX_LIMIT && 0 <= r.offset
  {
    var ids := IdsOf(p.ids);
    var limit :=
      if p.pageSize.Some? || p.limit.Some? then OrElse(p.pageSize, p.limit)
      else if ids != [] then Some(Finite(Min(MAX_LIMIT, |ids|) as real))
      else Some(Finite(DEFAULT_LIMIT as real));
    var parts := Split(p.sort.GetOr(""), ':');
    var sortBy := if parts[0] != "" then Some(parts[0]) else p.sortBy;
    var descending := if p.sort.Some? then |parts| > 1 && parts[1] == "desc" else p.descending.GetOr(false);
    Normalise(p.page, p.offset, limit, sortBy, descending)
  }

  function AskedPairs(fields: seq<string>, raw: map<string, string>): seq<Pair> {
    if fields == [] then []
    else
      (if fields[0] in raw && raw[fields[0]] != "" then [Pair(fields[0], raw[fields[0]])] else [])
      + AskedPairs(fields[1..], raw)
  }

  function AskedSearch(p: ListParams, decl: Declarations): Option<Search> {
    var text := Trim(p.q.GetOr(""));
    if text != "" && decl.searchFields != [] then Some(Search(text, decl.searchFields)) else None
  }

  /** The filters a query asks for; `raw` is the whole query string, of which only declared fields count. */
  function ListFilter(p: ListParams, raw: map<string, string>, decl: Declarations): Option<Where> {
    var equals := AskedPairs(decl.filterFields, raw);
    var ids := IdsOf(p.ids);
    var q := AskedSearch(p, decl);
    if equals == [] && ids == [] && q == None then None
    else Some(Full(NO_FILTER.(equals := equals, ids := if ids != [] then Some(ids) else None, q := q)))
  }

  // --- what a query asks for ---------------------------------------------------------------------

  lemma WholeNumber(n: int, fallback: int)
    requires 0 <= n <= MAX_SAFE_INTEGER
    ensures FiniteInt(Some(Finite(n as real)), fallback) == n
  {
    assert Trunc(n as real) == n;
  }

  /** A limit between 1 and 200 that is the whole part of what was asked, or the nearer end. */
  predicate Capped(limit: int, v: real) {
    if v < 2.0 then limit == 1 else if v >= 200.0 then limit == 200 else limit as real <= v < (limit + 1) as real
  }

  lemma CappedSize(size: JsNumber)
    requires size.Finite?
    ensures Capped(Min(MAX_LIMIT, Max(1, FiniteInt(Some(size), DEFAULT_LIMIT))), size.v)
  {
    if size.v >= 0.0 {
      assert size.v.Floor as real <= size.v < (size.v.Floor + 1) as real;
    }
  }

  /**
   * The size of a page: `pageSize` before `limit`, cut to a whole number between 1 and 200, and 25 when
   * it is no finite number; with neither, a batch of ids is its own size up to the cap, and otherwise 25.
   */
  lemma AskedSize(p: ListParams)
    ensures var limit := ListPageRequest(p).limit;
      match OrElse<JsNumber>(p.pageSize, p.limit)
      case Some(Finite(v)) => Capped(limit, v)
      case Some(_) => limit == 25
      case None => if IdsOf(p.ids) == [] then limit == 25 else Capped(limit, |IdsOf(p.ids)| as real)
  {
    hide IdsOf, FiniteInt;
    var size := OrElse(p.pageSize, p.limit);
    var ids := IdsOf(p.ids);
    if size.Some? && size.value.Finite? {
      CappedSize(size.value);
    } else if size.Some? {
      NoSize(size.value);
    } else if ids != [] {
      CappedSize(Finite(Min(MAX_LIMIT, |ids|) as real));
    } else {
      WholeNumber(DEFAULT_LIMIT, DEFAULT_LIMIT);
    }
  }

  lemma NoSize(size: JsNumber)
    requires !size.Finite?
    ensures FiniteInt(Some(size), DEFAULT_LIMIT) == DEFAULT_LIMIT
  {
  }

  /** A count that is the whole part of what was asked, 0 below it, and at most the largest safe integer. */
  predicate WholePart(n: int, v: real) {
    if v < 1.0 then n == 0
    else if v >= 9007199254740991.0 then n == 9007199254740991
    else n as real <= v < (n + 1) as real
  }

  lemma CutWhole(v: real, least: int, fallback: int)
    requires 0 <= least <= 1
    ensures WholePart(Max(least, FiniteInt(Some(Finite(v)), fallback)), if v < 1.0 && least == 1 then 1.0 else v)
  {
    if v >= 0.0 {
      assert v.Floor as real <= v < (v.Floor + 1) as real;
    }
  }

  /**
   * Where a page starts, whatever was asked: with a page number, after the pages before it, the first one
   * for a number below 1 or none at all; otherwise at the whole part of the offset, 0 when it is negative, no
   * finite number or not given.
   */
  lemma AskedOffset(p: ListParams)
    ensures var r := ListPageRequest(p);
      match p.page
      case Some(Finite(v)) => exists k :: k >= 1 && WholePart(k, if v < 1.0 then 1.0 else v) && r.offset == PagesBefore(k, r.limit)
      case Some(_) => r.offset == 0
      case None =>
        match p.offset
        case Some(Finite(v)) => WholePart(r.offset, v)
        case Some(_) => r.offset == 0
        case None => r.offset == 0
  {
    hide IdsOf, FieldName, FiniteInt, Split;
    var r := ListPageRequest(p);
    NotFinite();
    match p.page
    case Some(Finite(v)) =>
      CutWhole(v, 1, 1);
      var k := Max(1, FiniteInt(p.page, 1));
      assert r.offset == PagesBefore(k, r.limit);
    case Some(_) => assert PagesBefore(1, r.limit) == 0;
    case None => if p.offset.Some? && p.offset.value.Finite? { CutWhole(p.offset.value.v, 0, 0); }
  }

  /** The rows of the `k - 1` pages before page `k`. */
  function PagesBefore(k: int, limit: int): int { limit * (k - 1) }

  lemma NotFinite()
    ensures forall value: Option<JsNumber>, fallback :: !(value.Some? && value.value.Finite?) ==> FiniteInt(value, fallback) == fallback
  {
  }

  /**
   * `sort` names the field and, after a colon, the direction: descending exactly when it is spelled `desc`;
   * without `sort`, `sortBy` and `descending` do. A field not shaped like a name sorts by nothing.
   */
  lemma AskedPlace(p: ListParams, field: string, direction: string)
    requires field != "" && ':' !in field && ':' !in direction
    ensures var r := ListPageRequest(p);
      var sortBy := if NameShaped(field) then Some(field) else None;
      && (p.sort == Some(field + ":" + direction) ==> r.sortBy == sortBy && (r.descending <==> direction == "desc"))
      && (p.sort == Some(field) ==> r.sortBy == sortBy && !r.descending)
      && (p.sort.None? && p.sortBy == Some(field) ==> r.sortBy == sortBy && r.descending == (p.descending == Some(true)))
  {
    NamedByShape(field);
    hide IdsOf, FieldName, NameShaped;
    SplitPlain(field, ':');
    SplitPlain(direction, ':');
    SplitHead(field, direction, ':');
    assert field + ([':'] + direction) == field + ":" + direction;
  }

  /** The ASCII letters and the underscore, by their codes; the digits. */
  predicate LetterCode(n: int) { 65 <= n <= 90 || n == 95 || 97 <= n <= 122 }
  predicate DigitCode(n: int) { 48 <= n <= 57 }

  /** One letter or underscore, then letters, digits and underscores. */
  predicate NameShaped(s: string) {
    s != "" && LetterCode(s[0] as int) && forall i | 0 < i < |s| :: LetterCode(s[i] as int) || DigitCode(s[i] as int)
  }

  lemma NamedByShape(s: string)
    ensures FieldName(s) <==> NameShaped(s)
  {
    if NameShaped(s) {
      forall c | c in s ensures NameChar(c) { }
    }
    if FieldName(s) {
      forall i | 0 < i < |s| ensures LetterCode(s[i] as int) || DigitCode(s[i] as int) {
        assert s[i] in s && NameChar(s[i]);
      }
    }
  }

  lemma {:induction false} AskedPairsExactly(fields: seq<string>, raw: map<string, string>, pair: Pair)
    ensures pair in AskedPairs(fields, raw)
       <==> pair.field in fields && pair.field in raw && raw[pair.field] == pair.value && pair.value != ""
  {
    if fields != [] {
      AskedPairsExactly(fields[1..], raw, pair);
      assert fields == [fields[0]] + fields[1..];
    }
  }

  /** A row meets what the query names: each declared field given a value, the ids if any, the search if any. */
  predicate MeetsQuery(fold: Fold, row: TextRow, p: ListParams, raw: map<string, string>, decl: Declarations) {
    && (forall f | f in decl.filterFields && f in raw && raw[f] != "" :: PairHolds(row, Pair(f, raw[f])))
    && (IdsOf(p.ids) != [] ==> row.id in IdsOf(p.ids))
    && (Trim(p.q.GetOr("")) != "" && decl.searchFields != [] ==>
          exists f | f in decl.searchFields :: FieldBegins(fold, row, f, Trim(p.q.GetOr(""))))
  }

  /** From the query string to the selected rows: the statement returns exactly the live rows that meet the query. */
  lemma QueryMeaning(fold: Fold, row: TextRow, p: ListParams, raw: map<string, string>, decl: Declarations)
    ensures Selects(fold, row, ListFilter(p, raw, decl)) <==> !row.deleted && MeetsQuery(fold, row, p, raw, decl)
  {
    hide Selects, IdsOf, Trim, AskedPairs, FieldBegins, PairHolds;
    var pairs := AskedPairs(decl.filterFields, raw);
    forall e ensures e in pairs <==> e.field in decl.filterFields && e.field in raw && raw[e.field] == e.value && e.value != "" {
      AskedPairsExactly(decl.filterFields, raw, e);
    }
    forall f | f in decl.filterFields && f in raw && raw[f] != "" ensures Pair(f, raw[f]) in pairs { }
    SelectsMeaning(fold, row, ListFilter(p, raw, decl));
  }
}
