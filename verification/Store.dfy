/**
 * One table of a cube's store, with the outbox and the activity log written in the same
 * transaction. `Insert` and `Update` are atomic steps over that state; the results at the end hold
 * after any serial run of them.
 */
module Store {
  import opened Wrappers
  import opened JsonValues
  import opened SortKeys
  import opened Filters
  import opened Rows
  import opened CustomValues
  import opened Diff
  import Rekey

  /**
   * An object literal a cube hands to the store. The meta keys carry values of their columns' types;
   * under `body`, `None` is a key present with the value `undefined`.
   */
  datatype PayloadData = Payload(
    id: Option<string>,
    kind: Option<string>,
    createdAt: Option<int>,
    deleted: Option<bool>,
    body: map<string, Option<Json>>)

  type Payload = p: PayloadData | p.body.Keys !! META_COLUMNS witness Payload(None, None, None, None, map[])

  datatype Operation = InsertOp | UpdateOp | DeleteOp
  datatype ActivityOp = Created | Updated | Deleted

  datatype OutboxRow = OutboxRow(id: string, op: Operation, version: int)
  datatype ActivityRow = ActivityRow(
    entityType: string, id: string, op: ActivityOp, version: int, actor: Option<string>, changes: Changes)

  datatype StoreError = DuplicateId | CustomCap

  /** The cube's sortable fields and the entity whose rows are captured, if any. */
  datatype Config = Config(p: Platform, sortable: seq<string>, capture: Option<string>)

  datatype State = State(table: Table, outbox: seq<OutboxRow>, activity: seq<ActivityRow>)

  // --- what a write stores ---------------------------------------------------------------------

  /** `unkeyed`, then `asStored`: no forged sort keys, no keys whose value is undefined. */
  function Stored(values: map<string, Option<Json>>): Body {
    map k | k in values && k != SORT_KEYS && values[k].Some? :: values[k].value
  }

  /** `{ ...previous, ...unkeyed(patch) }` */
  function Merged(previous: Body, patch: map<string, Option<Json>>): Body {
    (map k | k in previous && !(k in patch && k != SORT_KEYS) :: previous[k]) + Stored(patch)
  }

  /** `custom` merges with the row's, and the caps apply to the merged object. */
  function MergeCustom(json: Json -> string, current: Option<Json>, merged: Body): Option<Body> {
    match (current, Get(merged, CUSTOM))
    case (Some(Obj(stored)), Some(Obj(patched))) =>
      var combined := stored + patched;
      if WithinCaps(json, combined) then Some(merged[CUSTOM := Obj(combined)]) else None
    case _ => Some(merged)
  }

  function InsertedId(freshId: string, values: Payload): string {
    values.id.GetOr(freshId)
  }

  function InsertedRow(cfg: Config, now: int, entityType: string, values: Payload): Row {
    Row(values.kind.GetOr(entityType), values.createdAt.GetOr(now), values.deleted.GetOr(false), 1,
        WithSortKeys(cfg.p.rules, Stored(values.body), cfg.sortable))
  }

  /** The body an update stores, before its sort keys; `None` when the custom caps refuse it. */
  function UpdatedBody(cfg: Config, current: Row, patch: Payload): Option<Body> {
    MergeCustom(cfg.p.rules.json, Get(current.body, CUSTOM), Merged(Without(current.body, SORT_KEYS), patch.body))
  }

  function UpdatedRow(cfg: Config, current: Row, patch: Payload, body: Body): Row {
    Row(patch.kind.GetOr(current.kind), patch.createdAt.GetOr(current.createdAt), patch.deleted.GetOr(current.deleted),
        current.version + 1, WithSortKeys(cfg.p.rules, body, cfg.sortable))
  }

  // --- the two transactions as relations between states ------------------------------------------

  /** One captured write appends one record of what changed; an uncaptured one appends nothing. */
  ghost predicate Recorded(captured: bool, log: seq<ActivityRow>, log': seq<ActivityRow>, row: ActivityRow,
                           before: Option<Body>, after: Body) {
    if captured then
      && |log'| == |log| + 1 && log'[..|log|] == log
      && log'[|log|].(changes := map[]) == row
      && (if row.op == Deleted then log'[|log|].changes == map[] else IsDiff(before, after, log'[|log|].changes))
    else log' == log
  }

  ghost predicate InsertStep(cfg: Config, s: State, freshId: string, now: int, entityType: string, actor: Option<string>,
                             values: Payload, s': State) {
    var id := InsertedId(freshId, values);
    && id !in s.table
    && s'.table == s.table[id := InsertedRow(cfg, now, entityType, values)]
    && s'.outbox == s.outbox + [OutboxRow(id, InsertOp, 1)]
    && Recorded(cfg.capture == Some(entityType), s.activity, s'.activity,
                ActivityRow(entityType, id, Created, 1, actor, map[]), None, Stored(values.body))
  }

  ghost predicate UpdateStep(cfg: Config, s: State, id: string, actor: Option<string>, patch: Payload, s': State) {
    && id in s.table
    && var current := s.table[id];
    && var body := UpdatedBody(cfg, current, patch);
    && body.Some?
    && var row := UpdatedRow(cfg, current, patch, body.value);
    && s'.table == s.table[id := row]
    && s'.outbox == s.outbox + [OutboxRow(id, if row.deleted then DeleteOp else UpdateOp, row.version)]
    && Recorded(cfg.capture == Some(row.kind), s.activity, s'.activity,
                ActivityRow(row.kind, id, if row.deleted then Deleted else Updated, row.version, actor, map[]),
                Some(Without(current.body, SORT_KEYS)), body.value)
  }

  class CubeStore {
    const cfg: Config
    var table: Table
    var outbox: seq<OutboxRow>
    var activity: seq<ActivityRow>

    function Snapshot(): State
      reads this
    {
      State(table, outbox, activity)
    }

    constructor (cfg: Config)
      ensures this.cfg == cfg && Snapshot() == State(map[], [], [])
    {
      this.cfg := cfg;
      table, outbox, activity := map[], [], [];
    }

    /** A taken id breaks the primary key: the transaction rolls back and nothing is written. */
    method Insert(freshId: string, now: int, entityType: string, actor: Option<string>, values: Payload)
      returns (r: Result<View, StoreError>)
      modifies this
      ensures r.Ok? ==>
        && InsertStep(cfg, old(Snapshot()), freshId, now, entityType, actor, values, Snapshot())
        && var id := InsertedId(freshId, values);
           r.value == Decode(id, table[id]).(body := Stored(values.body))
      ensures r.Err? <==> InsertedId(freshId, values) in old(table)
      ensures r.Err? ==> r.error == DuplicateId && Snapshot() == old(Snapshot())
    {
      var id := InsertedId(freshId, values);
      if id in table {
        return Err(DuplicateId);
      }
      var body := Stored(values.body);
      var row := InsertedRow(cfg, now, entityType, values);
      table := table[id := row];
      outbox := outbox + [OutboxRow(id, InsertOp, 1)];
      if cfg.capture.Some? && entityType == cfg.capture.value {
        var changes := DiffBody(None, body, _ => false);
        activity := activity + [ActivityRow(entityType, id, Created, 1, actor, changes)];
      }
      r := Ok(View(id, row.kind, row.createdAt, row.deleted, body));
    }

    /**
     * `None` when there is no such row; over the custom caps nothing is written. `respelled` says which
     * unchanged objects the patch spells with their keys in another order.
     */
    method Update(id: string, actor: Option<string>, patch: Payload, respelled: string -> bool) returns (r: Result<Option<View>, StoreError>)
      modifies this
      ensures r == Ok(None) <==> id !in old(table)
      ensures r.Ok? && r.value.Some? ==>
        && UpdateStep(cfg, old(Snapshot()), id, actor, patch, Snapshot())
        && r.value.value == Decode(id, table[id]).(body := UpdatedBody(cfg, old(table)[id], patch).value)
      ensures r.Err? <==> id in old(table) && UpdatedBody(cfg, old(table)[id], patch).None?
      ensures r.Err? || r == Ok(None) ==> Snapshot() == old(Snapshot())
    {
      if id !in table {
        return Ok(None);
      }
      var current := table[id];
      var merged := UpdatedBody(cfg, current, patch);
      if merged.None? {
        return Err(CustomCap);
      }
      var body := merged.value;
      var row := UpdatedRow(cfg, current, patch, body);
      table := table[id := row];
      outbox := outbox + [OutboxRow(id, if row.deleted then DeleteOp else UpdateOp, row.version)];
      if cfg.capture.Some? && row.kind == cfg.capture.value {
        var changes := map[];
        if !row.deleted {
          changes := DiffBody(Some(Without(current.body, SORT_KEYS)), body, respelled);
        }
        activity := activity + [ActivityRow(row.kind, id, if row.deleted then Deleted else Updated, row.version, actor, changes)];
      }
      r := Ok(Some(View(id, row.kind, row.createdAt, row.deleted, body)));
    }
  }

  // --- every write leaves fresh keys -------------------------------------------------------------

  /**
   * An update is refused exactly when the stored `custom` object and the patch's, or the stored one alone when
   * the patch has none, merge to more than 32 names or 8192 characters: a row over the caps refuses updates of other keys.
   */
  lemma RefusedExactly(cfg: Config, current: Row, patch: Payload)
    ensures UpdatedBody(cfg, current, patch).None? <==>
      match (Get(current.body, "custom"), if "custom" in patch.body then patch.body["custom"] else Get(current.body, "custom"))
      case (Some(Obj(stored)), Some(Obj(patched))) =>
        |stored + patched| > 32 || |cfg.p.rules.json(Obj(stored + patched))| > 8192
      case _ => false
  {
    var kept := Without(current.body, SORT_KEYS);
    assert Get(kept, CUSTOM) == Get(current.body, CUSTOM);
    assert Get(Merged(kept, patch.body), CUSTOM) == PatchedValue(Get(kept, CUSTOM), patch.body, CUSTOM);
    hide Merged;
  }

  /** What the store returned is what it stored. */
  lemma ReturnedIsStored(cfg: Config, s: State, id: string, actor: Option<string>, patch: Payload, s': State)
    requires SORT_KEYS !in cfg.sortable && UpdateStep(cfg, s, id, actor, patch, s')
    ensures Decode(id, s'.table[id]).body == UpdatedBody(cfg, s.table[id], patch).value
  {
    var body := UpdatedBody(cfg, s.table[id], patch).value;
    WithSortKeysFresh(cfg.p.rules, body, cfg.sortable);
    assert SORT_KEYS !in body;
    SameBody(Without(body, SORT_KEYS), body);
  }

  /** The new value of one key of a body patched by an object literal; `undefined` removes it. */
  function PatchedValue(previous: Option<Json>, patch: map<string, Option<Json>>, key: string): Option<Json> {
    if key in patch then patch[key] else previous
  }

  lemma KeysAside(cfg: Config, body: Body, key: string)
    requires SORT_KEYS !in cfg.sortable && key != SORT_KEYS
    ensures Get(WithSortKeys(cfg.p.rules, body, cfg.sortable), key) == Get(body, key)
  {
    WithSortKeysFresh(cfg.p.rules, body, cfg.sortable);
    var keyed := WithSortKeys(cfg.p.rules, body, cfg.sortable);
    assert Get(Without(keyed, SORT_KEYS), key) == Get(keyed, key) && Get(Without(body, SORT_KEYS), key) == Get(body, key);
  }

  /** The merge, key by key: outside `custom` the patch or else the row; between two objects the same per name. */
  lemma MergedAt(json: Json -> string, stored: Body, patch: map<string, Option<Json>>, key: string)
    requires key != SORT_KEYS && MergeCustom(json, Get(stored, CUSTOM), Merged(Without(stored, SORT_KEYS), patch)).Some?
    ensures var body := MergeCustom(json, Get(stored, CUSTOM), Merged(Without(stored, SORT_KEYS), patch)).value;
      Patched(Get(stored, key), PatchedValue(Get(stored, key), patch, key), Get(body, key), key)
  {
    hide WithinCaps;
    var merged := Merged(Without(stored, SORT_KEYS), patch);
    assert Get(Without(stored, SORT_KEYS), key) == Get(stored, key);
    assert Get(merged, key) == PatchedValue(Get(stored, key), patch, key);
  }

  /** A value after an update: the patched one, except that two `custom` objects merge name by name. */
  ghost predicate Patched(before: Option<Json>, patched: Option<Json>, after: Option<Json>, key: string) {
    if key == CUSTOM && before.Some? && before.value.Obj? && patched.Some? && patched.value.Obj? then
      && after.Some? && after.value.Obj?
      && forall n :: Get(after.value.fields, n) ==
           if n in patched.value.fields then Get(patched.value.fields, n) else Get(before.value.fields, n)
    else after == patched
  }

  /**
   * What an update stores: under a key, the patched value; of the meta columns, those the patch gives; the
   * version after the stored one. No other row is touched.
   */
  lemma UpdateIsPatch(cfg: Config, s: State, id: string, actor: Option<string>, patch: Payload, s': State, key: string)
    requires SORT_KEYS !in cfg.sortable && UpdateStep(cfg, s, id, actor, patch, s')
    requires key != SORT_KEYS
    ensures var current, row := s.table[id], s'.table[id];
      && Patched(Get(current.body, key), PatchedValue(Get(current.body, key), patch.body, key), Get(row.body, key), key)
      && row.version == current.version + 1
      && row.kind == (if patch.kind.Some? then patch.kind.value else current.kind)
      && row.deleted == (if patch.deleted.Some? then patch.deleted.value else current.deleted)
      && row.createdAt == (if patch.createdAt.Some? then patch.createdAt.value else current.createdAt)
    ensures forall other | other in s.table && other != id :: other in s'.table && s'.table[other] == s.table[other]
  {
    hide WithSortKeys, WithinCaps, Recorded, Patched, PatchedValue, MergeCustom;
    var body := UpdatedBody(cfg, s.table[id], patch).value;
    KeysAside(cfg, body, key);
    MergedAt(cfg.p.rules.json, s.table[id].body, patch.body, key);
  }

  /** What an insert stores: every value given, defaults for the meta columns that are not, version 1. */
  lemma InsertIsGiven(cfg: Config, s: State, freshId: string, now: int, entityType: string, actor: Option<string>,
                      values: Payload, s': State, key: string)
    requires SORT_KEYS !in cfg.sortable && InsertStep(cfg, s, freshId, now, entityType, actor, values, s')
    requires key != SORT_KEYS
    ensures var id := if values.id.Some? then values.id.value else freshId;
      && id in s'.table && s'.table[id].version == 1
      && Get(s'.table[id].body, key) == (if key in values.body then values.body[key] else None)
      && s'.table[id].kind == (if values.kind.Some? then values.kind.value else entityType)
      && s'.table[id].deleted == (values.deleted == Some(true))
      && s'.table[id].createdAt == (if values.createdAt.Some? then values.createdAt.value else now)
      && forall other | other in s.table :: other in s'.table && s'.table[other] == s.table[other]
  {
    hide WithSortKeys, Recorded;
    KeysAside(cfg, Stored(values.body), key);
  }

  /** To the rekey walk, inserts and updates are writers that leave every row they touch fresh. */
  lemma InsertIsWriter(cfg: Config, s: State, freshId: string, now: int, entityType: string, actor: Option<string>,
                       values: Payload, s': State)
    requires SORT_KEYS !in cfg.sortable && "" !in s.table && InsertedId(freshId, values) != ""
    requires InsertStep(cfg, s, freshId, now, entityType, actor, values, s')
    ensures Rekey.WriterStep(cfg.p.rules, cfg.sortable, s.table, s'.table)
  {
    hide FreshBody, WithSortKeys;
    WithSortKeysFresh(cfg.p.rules, Stored(values.body), cfg.sortable);
  }

  lemma UpdateIsWriter(cfg: Config, s: State, id: string, actor: Option<string>, patch: Payload, s': State)
    requires SORT_KEYS !in cfg.sortable && "" !in s.table
    requires UpdateStep(cfg, s, id, actor, patch, s')
    ensures Rekey.WriterStep(cfg.p.rules, cfg.sortable, s.table, s'.table)
  {
    hide FreshBody, WithSortKeys, UpdatedBody;
    WithSortKeysFresh(cfg.p.rules, UpdatedBody(cfg, s.table[id], patch).value, cfg.sortable);
  }
}
