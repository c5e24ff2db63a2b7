/** Stored rows, the view callers get of them, and the order a page lists them in. */
module Rows {
  import opened Wrappers
  import opened Text
  import opened JsonValues
  import opened SortKeys
  import opened Like
  import opened Listings
  import opened Filters

  datatype Row = Row(kind: string, createdAt: int, deleted: bool, version: int, body: Body)

  type Table = map<string, Row>

  /**
   * What the platform decides: text folding, the SQL rendering of JSON values and timestamps, and
   * the collation of text columns. Only the last is constrained: a collation is a strict total order.
   */
  datatype Platform = Platform(
    rules: TextRules,
    fold: Fold,
    render: Json -> string,
    renderTime: int -> string,
    collate: Order)

  ghost predicate IsCollation(lt: Order) {
    && (forall a :: !lt(a, a))
    && (forall a, b :: a == b || lt(a, b) || lt(b, a))
    && (forall a, b, c :: lt(a, b) && lt(b, c) ==> lt(a, c))
  }

  // --- views -----------------------------------------------------------------------------------

  datatype View = View(id: string, kind: string, createdAt: int, deleted: bool, body: Body)

  /** The row as callers see it: the reserved sort keys never leave the store. */
  function Decode(id: string, row: Row): View {
    View(id, row.kind, row.createdAt, row.deleted, Without(row.body, SORT_KEYS))
  }

  function FieldTexts(p: Platform, body: Body): map<string, string> {
    map f | f in body && body[f] != Null :: if body[f].Str? then body[f].s else p.render(body[f])
  }

  function AsText(p: Platform, id: string, row: Row): TextRow {
    TextRow(id, row.kind, p.renderTime(row.createdAt), row.deleted, FieldTexts(p, row.body))
  }

  // --- order -----------------------------------------------------------------------------------

  datatype SortTerm = ByCreated | ById | ByKind | ByDeleted | ByKey(field: string)

  /** The ORDER BY of a page: the applied term, after which `id` breaks ties in the same direction. */
  function OrderTerm(sortBy: Option<string>, sortable: seq<string>): (SortTerm, string) {
    match sortBy
    case None => (ByCreated, "createdAt")
    case Some(f) =>
      if f == "" then (ByCreated, "createdAt")
      else if f == "id" then (ById, f)
      else if f == "type" then (ByKind, f)
      else if f == "createdAt" then (ByCreated, f)
      else if f == "deleted" then (ByDeleted, f)
      else if f in sortable then (ByKey(f), f)
      else (ByCreated, "createdAt")
  }

  /** One ORDER BY expression over text keys: NULLs first when ascending, last when descending. */
  predicate KeyTermLess(a: Option<string>, b: Option<string>, descending: bool) {
    match (a, b)
    case (None, None) => false
    case (None, Some(_)) => !descending
    case (Some(_), None) => descending
    case (Some(x), Some(y)) => if descending then TextLess(y, x) else TextLess(x, y)
  }

  predicate TermLess(p: Platform, term: SortTerm, a: string, ra: Row, b: string, rb: Row, descending: bool) {
    match term
    case ByCreated => if descending then ra.createdAt > rb.createdAt else ra.createdAt < rb.createdAt
    case ById => if descending then p.collate(b, a) else p.collate(a, b)
    case ByKind => if descending then p.collate(rb.kind, ra.kind) else p.collate(ra.kind, rb.kind)
    case ByDeleted => if descending then ra.deleted && !rb.deleted else !ra.deleted && rb.deleted
    case ByKey(f) => KeyTermLess(StoredKey(p.rules, ra.body, f), StoredKey(p.rules, rb.body, f), descending)
  }

  /** The whole ORDER BY: the applied term, then the unique `id`, both in the asked direction. */
  predicate RowLess(p: Platform, term: SortTerm, a: string, ra: Row, b: string, rb: Row, descending: bool) {
    || TermLess(p, term, a, ra, b, rb, descending)
    || (!TermLess(p, term, b, rb, a, ra, descending) && (if descending then p.collate(b, a) else p.collate(a, b)))
  }

  lemma KeyTermOrder(a: Option<string>, b: Option<string>, c: Option<string>, descending: bool)
    ensures KeyTermLess(a, b, descending) ==> !KeyTermLess(b, a, descending)
    ensures KeyTermLess(a, c, descending) ==> KeyTermLess(a, b, descending) || KeyTermLess(b, c, descending)
  {
    if a.Some? && b.Some? {
      TextConnected(a.value, b.value);
      if TextLess(a.value, b.value) { LexAsymmetric(Codes(a.value), Codes(b.value)); }
      if TextLess(b.value, a.value) { LexAsymmetric(Codes(b.value), Codes(a.value)); }
      if c.Some? {
        TextConnected(b.value, c.value);
        TextTransitive(b.value, a.value, c.value);
        TextTransitive(a.value, c.value, b.value);
        TextTransitive(c.value, a.value, b.value);
        TextTransitive(b.value, c.value, a.value);
      }
    }
  }

  lemma TextTransitive(a: string, b: string, c: string)
    ensures TextLess(a, b) && TextLess(b, c) ==> TextLess(a, c)
  {
    if TextLess(a, b) && TextLess(b, c) { LexTransitive(Codes(a), Codes(b), Codes(c)); }
  }

  /** Each term is asymmetric, and what lies between two rows is above one or below the other. */
  lemma TermOrder(p: Platform, term: SortTerm, a: string, ra: Row, b: string, rb: Row, c: string, rc: Row, desc: bool)
    requires IsCollation(p.collate)
    ensures TermLess(p, term, a, ra, b, rb, desc) ==> !TermLess(p, term, b, rb, a, ra, desc)
    ensures TermLess(p, term, a, ra, c, rc, desc)
        ==> TermLess(p, term, a, ra, b, rb, desc) || TermLess(p, term, b, rb, c, rc, desc)
  {
    match term
    case ByKey(f) =>
      KeyTermOrder(StoredKey(p.rules, ra.body, f), StoredKey(p.rules, rb.body, f), StoredKey(p.rules, rc.body, f), desc);
    case _ =>
  }

  function RowOrder(p: Platform, table: Table, term: SortTerm, descending: bool): Order {
    (a, b) => a in table && b in table && RowLess(p, term, a, table[a], b, table[b], descending)
  }

  lemma RowOrderTransitive(p: Platform, table: Table, term: SortTerm, desc: bool, a: string, b: string, c: string)
    requires IsCollation(p.collate)
    requires RowOrder(p, table, term, desc)(a, b) && RowOrder(p, table, term, desc)(b, c)
    ensures RowOrder(p, table, term, desc)(a, c)
  {
    var ra, rb, rc := table[a], table[b], table[c];
    TermOrder(p, term, a, ra, c, rc, b, rb, desc);
    TermOrder(p, term, b, rb, c, rc, a, ra, desc);
    TermOrder(p, term, b, rb, a, ra, c, rc, desc);
    TermOrder(p, term, c, rc, b, rb, a, ra, desc);
  }

  /** Any ORDER BY of the store is a strict total order on the rows: no two rows are tied. */
  lemma RowOrderTotal(p: Platform, table: Table, term: SortTerm, descending: bool)
    requires IsCollation(p.collate)
    ensures StrictTotal(RowOrder(p, table, term, descending), table.Keys)
  {
    var lt := RowOrder(p, table, term, descending);
    forall a | a in table.Keys ensures !lt(a, a) {
      TermOrder(p, term, a, table[a], a, table[a], a, table[a], descending);
    }
    forall a, b, c | a in table.Keys && b in table.Keys && c in table.Keys && lt(a, b) && lt(b, c) ensures lt(a, c) {
      RowOrderTransitive(p, table, term, descending, a, b, c);
    }
  }
}
