/**
 * Raw statement batches: whatever the statements did to the tables, the rows they name are re-keyed
 * in the same transaction. `ReachablePagesSorted` draws the conclusion for lists: in every table
 * state reached by inserts, updates and batches that name what they change, a page sorted by a
 * declared field is sorted by the stored values.
 */
module Batch {
  import opened Wrappers
  import opened SortKeys
  import opened Filters
  import opened Rows
  import opened Pages
  import opened Pagination
  import opened Store
  import opened History
  import Listings
  import Rekey

  type Tables = map<string, Table>

  /** A statement is whatever it does to the cube's tables, and the rows it declares it wrote. */
  datatype Named = Named(table: string, ids: seq<string>)
  datatype SqlStatement = SqlStatement(effect: Tables -> Tables, rekey: Option<Named>)

  /** The rows named for one table by any of the statements. */
  function NamedIds(statements: seq<SqlStatement>, table: string): set<string> {
    if statements == [] then {}
    else
      var last := statements[|statements| - 1];
      NamedIds(statements[..|statements| - 1], table)
      + if last.rekey.Some? && last.rekey.value.table == table then Members(last.rekey.value.ids) else {}
  }

  function Members(ids: seq<string>): set<string> {
    set id | id in ids
  }

  /** A row is named for a table exactly when some statement declares that it wrote it there. */
  lemma {:induction false} NamedExactly(statements: seq<SqlStatement>, table: string, id: string)
    ensures id in NamedIds(statements, table) <==>
      exists s :: s in statements && s.rekey.Some? && s.rekey.value.table == table && id in s.rekey.value.ids
  {
    if statements != [] {
      var init, last := statements[..|statements| - 1], statements[|statements| - 1];
      NamedExactly(init, table, id);
      assert statements == init + [last];
    }
  }

  lemma NothingNamed()
    ensures forall t :: NamedIds([], t) == {}
  {
  }

  function RunAll(statements: seq<SqlStatement>, tables: Tables): Tables {
    if statements == [] then tables
    else statements[|statements| - 1].effect(RunAll(statements[..|statements| - 1], tables))
  }

  lemma LastStatement(statements: seq<SqlStatement>, i: nat, tables: Tables, table: string)
    requires i < |statements|
    ensures RunAll(statements[..i + 1], tables) == statements[i].effect(RunAll(statements[..i], tables))
    ensures NamedIds(statements[..i + 1], table) == NamedIds(statements[..i], table)
      + if statements[i].rekey.Some? && statements[i].rekey.value.table == table
        then Members(statements[i].rekey.value.ids) else {}
  {
    assert statements[..i + 1][..i] == statements[..i];
  }

  /** The targets of a batch: per table the named ids, for tables that have any. */
  method RekeyTargets(statements: seq<SqlStatement>) returns (targets: map<string, set<string>>)
    ensures forall t :: t in targets <==> NamedIds(statements, t) != {}
    ensures forall t | t in targets :: targets[t] == NamedIds(statements, t)
  {
    hide NamedIds;
    targets := map[];
    NothingNamed();
    for i := 0 to |statements|
      invariant forall t :: t in targets <==> NamedIds(statements[..i], t) != {}
      invariant forall t | t in targets :: targets[t] == NamedIds(statements[..i], t)
    {
      var r := statements[i].rekey;
      forall t { LastStatement(statements, i, map[], t); }
      if r.Some? && |r.value.ids| > 0 {
        var ids := if r.value.table in targets then targets[r.value.table] else {};
        for j := 0 to |r.value.ids|
          invariant ids == NamedIds(statements[..i], r.value.table) + Members(r.value.ids[..j])
        {
          ids := ids + {r.value.ids[j]};
          assert r.value.ids[..j + 1] == r.value.ids[..j] + [r.value.ids[j]];
        }
        assert r.value.ids[..|r.value.ids|] == r.value.ids;
        assert r.value.ids[0] in ids;
        targets := targets[r.value.table := ids];
      }
    }
    assert statements[..|statements|] == statements;
  }

  /** The tables a batch commits: the raw effects, then every named row re-keyed. */
  function Batched(rules: TextRules, sortable: seq<string>, statements: seq<SqlStatement>, tables: Tables): Tables {
    var raw := RunAll(statements, tables);
    map t | t in raw :: Rekey.Rekeyed(rules, sortable, Some(NamedIds(statements, t)), raw[t])
  }

  class BatchStore {
    const rules: TextRules
    const sortable: seq<string>
    var tables: Tables

    constructor (rules: TextRules, sortable: seq<string>, tables: Tables)
      ensures this.rules == rules && this.sortable == sortable && this.tables == tables
    {
      this.rules, this.sortable, this.tables := rules, sortable, tables;
    }

    /** One transaction; naming a table that does not exist fails it and leaves everything as it was. */
    method Batch(statements: seq<SqlStatement>) returns (ok: bool)
      requires SORT_KEYS !in sortable
      modifies this
      ensures ok ==> tables == Batched(rules, sortable, statements, old(tables))
      ensures !ok ==> tables == old(tables)
      ensures ok <==> forall t | NamedIds(statements, t) != {} :: t in RunAll(statements, old(tables))
    {
      var raw := RunStatements(statements, tables);
      var targets := RekeyTargets(statements);
      var work, known := RekeyNamed(rules, sortable, raw, targets);
      if known {
        NamedIsBatched(rules, sortable, statements, tables, targets);
        tables := work;
      }
      ok := known;
    }
  }

  method RunStatements(statements: seq<SqlStatement>, tables: Tables) returns (work: Tables)
    ensures work == RunAll(statements, tables)
  {
    work := tables;
    for i := 0 to |statements|
      invariant work == RunAll(statements[..i], tables)
    {
      LastStatement(statements, i, tables, "");
      work := statements[i].effect(work);
    }
    assert statements[..|statements|] == statements;
  }

  function RekeyedTargets(rules: TextRules, sortable: seq<string>, raw: Tables, targets: map<string, set<string>>): Tables {
    map t | t in raw :: if t in targets then Rekey.Rekeyed(rules, sortable, Some(targets[t]), raw[t]) else raw[t]
  }

  /** Re-key table by table; a target that is no table stops the batch. */
  method RekeyNamed(rules: TextRules, sortable: seq<string>, raw: Tables, targets: map<string, set<string>>)
    returns (work: Tables, known: bool)
    requires SORT_KEYS !in sortable
    ensures known <==> targets.Keys <= raw.Keys
    ensures known ==> work == RekeyedTargets(rules, sortable, raw, targets)
  {
    hide Rekey.Rekeyed;
    work := raw;
    var pending := targets.Keys;
    while pending != {}
      invariant pending <= targets.Keys && work.Keys == raw.Keys && targets.Keys - pending <= raw.Keys
      invariant forall t | t in raw :: work[t] == if t in pending then raw[t] else RekeyedTargets(rules, sortable, raw, targets)[t]
      decreases |pending|
    {
      var t :| t in pending;
      if t !in work {
        return work, false;
      }
      var stored := new Rekey.StoredTable(work[t]);
      var _ := stored.Rekey(rules, sortable, Some(targets[t]));
      work := work[t := stored.rows];
      pending := pending - {t};
    }
    known := true;
  }

  lemma NamedIsBatched(rules: TextRules, sortable: seq<string>, statements: seq<SqlStatement>, tables: Tables,
                       targets: map<string, set<string>>)
    requires forall t :: t in targets <==> NamedIds(statements, t) != {}
    requires forall t | t in targets :: targets[t] == NamedIds(statements, t)
    ensures RekeyedTargets(rules, sortable, RunAll(statements, tables), targets) == Batched(rules, sortable, statements, tables)
  {
    hide Rekey.Rekeyed;
    var raw := RunAll(statements, tables);
    forall t | t in raw && t !in targets
      ensures Rekey.Rekeyed(rules, sortable, Some(NamedIds(statements, t)), raw[t]) == raw[t]
    {
      RekeyedNothing(rules, sortable, raw[t]);
    }
  }

  lemma RekeyedNothing(rules: TextRules, sortable: seq<string>, t: Table)
    ensures Rekey.Rekeyed(rules, sortable, Some({}), t) == t
  {
  }

  /** The statements name every row they change or add. */
  ghost predicate NamesAll(statements: seq<SqlStatement>, tables: Tables, table: string) {
    var raw := RunAll(statements, tables);
    table in tables && table in raw
    && forall id | id in raw[table] ::
         (id in tables[table] && raw[table][id] == tables[table][id]) || id in NamedIds(statements, table)
  }

  /** To the rekey walk and to lists, such a batch is one more writer that leaves fresh keys. */
  lemma BatchIsWriter(rules: TextRules, sortable: seq<string>, statements: seq<SqlStatement>, tables: Tables, table: string)
    requires SORT_KEYS !in sortable && sortable != []
    requires NamesAll(statements, tables, table) && "" !in RunAll(statements, tables)[table]
    ensures table in Batched(rules, sortable, statements, tables)
    ensures Rekey.WriterStep(rules, sortable, tables[table], Batched(rules, sortable, statements, tables)[table])
  {
    hide FreshBody, Rekey.RekeyedRow;
    var raw := RunAll(statements, tables)[table];
    Rekey.RekeyedMeaning(rules, sortable, Some(NamedIds(statements, table)), raw);
  }

  // --- reachable tables --------------------------------------------------------------------------

  ghost predicate ByWrite(cfg: Config, t: Table, t': Table, s: State, w: Write, s': State) {
    && s.table == t && s'.table == t'
    && History.WriteStep(cfg, s, w, s')
    && (w.DoInsert? ==> InsertedId(w.freshId, w.values) != "")
  }

  ghost predicate ByBatch(cfg: Config, t: Table, t': Table, tables: Tables, name: string, statements: seq<SqlStatement>) {
    && NamesAll(statements, tables, name) && tables[name] == t
    && "" !in RunAll(statements, tables)[name]
    && t' == Batched(cfg.p.rules, cfg.sortable, statements, tables)[name]
  }

  /** One insert, update or batch seen from one table. */
  datatype Cause = Wrote(s: State, w: Write, s': State) | Ran(tables: Tables, name: string, statements: seq<SqlStatement>)

  ghost predicate TableStep(cfg: Config, t: Table, t': Table, cause: Cause) {
    match cause
    case Wrote(s, w, s') => ByWrite(cfg, t, t', s, w, s')
    case Ran(tables, name, statements) => ByBatch(cfg, t, t', tables, name, statements)
  }

  ghost predicate TableRun(cfg: Config, trace: seq<Table>, causes: seq<Cause>) {
    && |trace| == |causes| + 1 && trace[0] == map[]
    && forall i | 0 <= i < |causes| :: TableStep(cfg, trace[i], trace[i + 1], causes[i])
  }

  lemma TableStepIsWriter(cfg: Config, t: Table, t': Table, cause: Cause)
    requires SORT_KEYS !in cfg.sortable && cfg.sortable != [] && "" !in t && TableStep(cfg, t, t', cause)
    ensures Rekey.WriterStep(cfg.p.rules, cfg.sortable, t, t')
  {
    hide Rekey.WriterStep, InsertStep, UpdateStep, Batched;
    match cause
    case Wrote(s, w, s') =>
      if w.DoInsert? {
        InsertIsWriter(cfg, s, w.freshId, w.now, w.entityType, w.actor, w.values, s');
      } else {
        UpdateIsWriter(cfg, s, w.id, w.actor, w.patch, s');
      }
    case Ran(tables, name, statements) =>
      BatchIsWriter(cfg.p.rules, cfg.sortable, statements, tables, name);
  }

  /** Every reachable table has fresh keys. */
  lemma {:induction false} ReachableFresh(cfg: Config, trace: seq<Table>, causes: seq<Cause>, n: nat)
    requires SORT_KEYS !in cfg.sortable && cfg.sortable != []
    requires TableRun(cfg, trace, causes) && n < |trace|
    ensures "" !in trace[n] && Fresh(cfg.p, trace[n], cfg.sortable)
  {
    hide TableStep, FreshBody;
    if n > 0 {
      ReachableFresh(cfg, trace, causes, n - 1);
      assert TableStep(cfg, trace[n - 1], trace[n - 1 + 1], causes[n - 1]);
      TableStepIsWriter(cfg, trace[n - 1], trace[n], causes[n - 1]);
    }
  }

  /**
   * In every reachable table, a page asked for by a declared field is sorted by the values stored there,
   * ties by id, in the direction asked for, and says so; asked descending, the whole list is the reverse.
   */
  lemma ReachablePagesSorted(cfg: Config, trace: seq<Table>, causes: seq<Cause>, n: nat, decl: Declarations,
                             params: ListParams, raw: map<string, string>, field: string)
    requires SORT_KEYS !in cfg.sortable && IsCollation(cfg.p.collate) && field in cfg.sortable && field !in META_COLUMNS
    requires TableRun(cfg, trace, causes) && n < |trace|
    requires ListPageRequest(params).sortBy == Some(field)
    ensures var page := GenericList(cfg.p, trace[n], cfg.sortable, decl, params, raw);
      && page.sortedBy == field
      && forall i, j | 0 <= i < j < |page.rows| ::
           InDirection(cfg.p, field, ListPageRequest(params).descending, page.rows[i], page.rows[j])
    ensures Walked(cfg.p, trace[n], cfg.sortable, decl, params.(sort := Some(field + ":desc")), raw)
         == Listings.Reversed(Walked(cfg.p, trace[n], cfg.sortable, decl, params.(sort := Some(field)), raw))
  {
    hide GenericList, Walked, ListPageRequest, Fresh;
    ReachableFresh(cfg, trace, causes, n);
    SortedPage(cfg.p, trace[n], cfg.sortable, decl, params, raw, field);
    assert field != "" && ':' !in field by { AskedFieldName(params); }
    DirectionReverses(cfg.p, trace[n], cfg.sortable, decl, params, raw, field);
  }

  lemma AskedFieldName(params: ListParams)
    ensures var sortBy := ListPageRequest(params).sortBy; sortBy.Some? ==> sortBy.value != "" && ':' !in sortBy.value
  {
  }
}
