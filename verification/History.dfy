/**
 * What the outbox and the activity log say about a table after any serial run of inserts and
 * updates: outbox versions count 1, 2, 3, ... up to the stored version, and the recorded changes of
 * a captured row, replayed in order, rebuild its body.
 */
module History {
  import opened Wrappers
  import opened JsonValues
  import opened SortKeys
  import opened Rows
  import opened CustomValues
  import opened Diff
  import opened Store

  datatype Write =
    | DoInsert(freshId: string, now: int, entityType: string, actor: Option<string>, values: Payload)
    | DoUpdate(id: string, actor: Option<string>, patch: Payload)

  ghost predicate WriteStep(cfg: Config, s: State, w: Write, s': State) {
    match w
    case DoInsert(freshId, now, entityType, actor, values) => InsertStep(cfg, s, freshId, now, entityType, actor, values, s')
    case DoUpdate(id, actor, patch) => UpdateStep(cfg, s, id, actor, patch, s')
  }

  /** A serial run of accepted writes over an empty table. */
  ghost predicate Run(cfg: Config, trace: seq<State>, writes: seq<Write>) {
    && |trace| == |writes| + 1
    && trace[0] == State(map[], [], [])
    && forall i | 0 <= i < |writes| :: WriteStep(cfg, trace[i], writes[i], trace[i + 1])
  }

  // --- outbox versions ---------------------------------------------------------------------------

  /** The versions the outbox announced for one row, in order. */
  function VersionsOf(outbox: seq<OutboxRow>, id: string): seq<int> {
    if outbox == [] then []
    else
      var last := outbox[|outbox| - 1];
      VersionsOf(outbox[..|outbox| - 1], id) + if last.id == id then [last.version] else []
  }

  function UpTo(n: nat): seq<int> {
    seq(n, i => i + 1)
  }

  lemma VersionsAppend(outbox: seq<OutboxRow>, row: OutboxRow, id: string)
    ensures VersionsOf(outbox + [row], id) == VersionsOf(outbox, id) + if row.id == id then [row.version] else []
  {
    assert (outbox + [row])[..|outbox|] == outbox;
  }

  /** For every row the outbox counts 1, 2, 3, ... to the stored version; for no row, nothing. */
  ghost predicate VersionsCount(s: State) {
    forall id :: if id in s.table then s.table[id].version >= 1 && VersionsOf(s.outbox, id) == UpTo(s.table[id].version)
                 else VersionsOf(s.outbox, id) == []
  }

  lemma WriteKeepsVersions(cfg: Config, s: State, w: Write, s': State)
    requires VersionsCount(s) && WriteStep(cfg, s, w, s')
    ensures VersionsCount(s')
  {
    hide UpdatedBody, WithSortKeys, Recorded;
    var row := s'.outbox[|s.outbox|];
    forall id ensures if id in s'.table then s'.table[id].version >= 1 && VersionsOf(s'.outbox, id) == UpTo(s'.table[id].version)
                      else VersionsOf(s'.outbox, id) == []
    {
      hide VersionsOf;
      VersionsAppend(s.outbox, row, id);
      if id == row.id {
        UpToNext(row.version);
      }
    }
  }

  lemma UpToNext(n: nat)
    requires n > 0
    ensures UpTo(n) == UpTo(n - 1) + [n]
  {
  }

  // --- replay ------------------------------------------------------------------------------------

  /** A row's recorded changes applied in order to an empty body. */
  function ReplayOf(log: seq<ActivityRow>, id: string): Body {
    if log == [] then map[]
    else
      var last := log[|log| - 1];
      var before := ReplayOf(log[..|log| - 1], id);
      if last.id == id then Apply(before, last.changes) else before
  }

  lemma ReplayAppend(log: seq<ActivityRow>, log': seq<ActivityRow>, id: string)
    requires |log'| == |log| + 1 && log'[..|log|] == log
    ensures ReplayOf(log', id) ==
      if log'[|log|].id == id then Apply(ReplayOf(log, id), log'[|log|].changes) else ReplayOf(log, id)
  {
  }

  ghost predicate Captured(cfg: Config, row: Row) {
    cfg.capture == Some(row.kind)
  }

  /** What activity should rebuild: the body callers see, without `custom`. */
  function Visible(row: Row): Body {
    Plain(Without(row.body, SORT_KEYS))
  }

  ghost predicate ReplayMatches(s: State, id: string)
    requires id in s.table
  {
    Plain(ReplayOf(s.activity, id)) == Visible(s.table[id])
  }

  ghost predicate Rebuilds(cfg: Config, s: State) {
    && (forall id | id in s.table :: NoDotted(s.table[id].body))
    && (forall id | id in s.table && Captured(cfg, s.table[id]) :: ReplayMatches(s, id))
    && (forall id | id !in s.table :: ReplayOf(s.activity, id) == map[])
  }

  /** No write retypes a row or spells a body key `custom.<name>`. */
  ghost predicate PlainWrite(w: Write) {
    var p := if w.DoInsert? then w.values else w.patch;
    p.kind.None? && forall k | k in p.body :: !Dotted(k)
  }

  /** A write that leaves its row deleted gives no body key outside `custom` another value. */
  ghost predicate DeletesOnly(s: State, w: Write) {
    w.DoUpdate? && w.id in s.table && w.patch.deleted.GetOr(s.table[w.id].deleted)
    ==> forall k | k in w.patch.body && k != CUSTOM && k != SORT_KEYS :: w.patch.body[k] == Get(s.table[w.id].body, k)
  }

  /** The patch changes nothing outside `custom` exactly when it gives no other key another value. */
  lemma SamePlainBody(cfg: Config, current: Row, patch: Payload)
    requires UpdatedBody(cfg, current, patch).Some?
    ensures Plain(UpdatedBody(cfg, current, patch).value) == Visible(current)
       <==> forall k | k in patch.body && k != CUSTOM && k != SORT_KEYS :: patch.body[k] == Get(current.body, k)
  {
    hide WithinCaps;
    var body := UpdatedBody(cfg, current, patch).value;
    forall k | k != CUSTOM
      ensures Get(Plain(body), k) == if k in patch.body && k != SORT_KEYS then patch.body[k] else Get(Visible(current), k)
      ensures k != SORT_KEYS ==> Get(Visible(current), k) == Get(current.body, k)
    {
      assert Get(Without(current.body, SORT_KEYS), k) == if k == SORT_KEYS then None else Get(current.body, k);
      assert Get(Merged(Without(current.body, SORT_KEYS), patch.body), k)
          == if k in patch.body && k != SORT_KEYS then patch.body[k] else Get(Without(current.body, SORT_KEYS), k);
    }
    if forall k | k in patch.body && k != CUSTOM && k != SORT_KEYS :: patch.body[k] == Get(current.body, k) {
      forall k ensures Get(Plain(body), k) == Get(Visible(current), k) { }
      SameBody(Plain(body), Visible(current));
    }
  }

  lemma StoredBody(cfg: Config, body: Body)
    requires SORT_KEYS !in cfg.sortable && SORT_KEYS !in body
    ensures Without(WithSortKeys(cfg.p.rules, body, cfg.sortable), SORT_KEYS) == body
    ensures NoDotted(body) ==> NoDotted(WithSortKeys(cfg.p.rules, body, cfg.sortable))
  {
    WithSortKeysFresh(cfg.p.rules, body, cfg.sortable);
    SameBody(Without(body, SORT_KEYS), body);
  }

  lemma UpdatedBodyClean(cfg: Config, current: Row, patch: Payload)
    requires UpdatedBody(cfg, current, patch).Some?
    ensures SORT_KEYS !in UpdatedBody(cfg, current, patch).value
    ensures NoDotted(current.body) && (forall k | k in patch.body :: !Dotted(k))
        ==> NoDotted(UpdatedBody(cfg, current, patch).value)
  {
    assert !Dotted(CUSTOM);
  }

  lemma InsertKeepsReplay(cfg: Config, s: State, w: Write, s': State)
    requires SORT_KEYS !in cfg.sortable && w.DoInsert? && PlainWrite(w)
    requires Rebuilds(cfg, s) && WriteStep(cfg, s, w, s')
    ensures Rebuilds(cfg, s')
  {
    hide WithSortKeys, ReplayOf, NoDotted, IsDiff, Apply;
    var id, body := InsertedId(w.freshId, w.values), Stored(w.values.body);
    StoredBody(cfg, body);
    assert NoDotted(body) by { DottedStored(w.values.body); }
    if cfg.capture == Some(w.entityType) {
      forall i ensures ReplayOf(s'.activity, i) ==
        if i == id then Apply(ReplayOf(s.activity, i), s'.activity[|s.activity|].changes) else ReplayOf(s.activity, i)
      {
        ReplayAppend(s.activity, s'.activity, i);
      }
      assert NoDotted(OrEmpty(None)) by { DottedEmpty(); }
      DiffReplays(None, body, s'.activity[|s.activity|].changes, ReplayOf(s.activity, id));
    }
  }

  lemma DottedEmpty()
    ensures NoDotted(map[])
  {
  }

  lemma DottedStored(values: map<string, Option<Json>>)
    ensures (forall k | k in values :: !Dotted(k)) ==> NoDotted(Stored(values))
  {
  }

  /**
   * After an update, replay still matches the row exactly when the write did not edit the body of
   * a row it left deleted: such an edit is stored but not recorded.
   */
  lemma UpdateReplayExact(cfg: Config, s: State, w: Write, s': State)
    requires SORT_KEYS !in cfg.sortable && w.DoUpdate? && PlainWrite(w)
    requires WriteStep(cfg, s, w, s') && Captured(cfg, s.table[w.id])
    requires NoDotted(s.table[w.id].body) && ReplayMatches(s, w.id)
    ensures ReplayMatches(s', w.id) <==> DeletesOnly(s, w)
    ensures NoDotted(s'.table[w.id].body)
  {
    hide WithSortKeys, ReplayOf, NoDotted, UpdatedBody, Plain;
    var current := s.table[w.id];
    var body := UpdatedBody(cfg, current, w.patch).value;
    var before := Without(current.body, SORT_KEYS);
    UpdatedBodyClean(cfg, current, w.patch);
    StoredBody(cfg, body);
    ReplayAppend(s.activity, s'.activity, w.id);
    var changes := s'.activity[|s.activity|].changes;
    var replayed := ReplayOf(s.activity, w.id);
    if s'.table[w.id].deleted {
      SamePlainBody(cfg, current, w.patch);
      EmptyReplays(before, body, replayed);
    } else {
      assert NoDotted(OrEmpty(Some(before))) by { DottedWithout(current.body); }
      DiffReplays(Some(before), body, changes, replayed);
    }
  }

  const NOTE := Row("note", 0, false, 1, map["title" := Str("a")])
  const NOTED := State(map["n1" := NOTE], [OutboxRow("n1", InsertOp, 1)],
                       [ActivityRow("note", "n1", Created, 1, None, map["title" := Change(None, Some(Str("a")))])])
  const EDITED_DELETE := DoUpdate("n1", None, Payload(None, None, None, Some(true), map["title" := Some(Str("b"))]))

  lemma RetitledNote()
    ensures !DeletesOnly(NOTED, EDITED_DELETE)
  {
    assert "a"[0] != "b"[0] && Get(NOTE.body, "title") == Some(Str("a"));
    assert EDITED_DELETE.patch.body["title"] == Some(Str("b"));
    assert "title" != CUSTOM && "title" != SORT_KEYS;
  }

  /** Such a write: a note deleted and retitled at once. Replaying its activity still gives the former title. */
  lemma EditedDelete(cfg: Config, s': State)
    requires cfg.sortable == [] && cfg.capture == Some("note") && WriteStep(cfg, NOTED, EDITED_DELETE, s')
    ensures ReplayMatches(NOTED, "n1") && "n1" in s'.table && !ReplayMatches(s', "n1")
  {
    assert NOTED.activity[..0] == [];
    assert ReplayOf(NOTED.activity, "n1") == Apply(map[], NOTED.activity[0].changes);
    SameBody(ReplayOf(NOTED.activity, "n1"), NOTE.body);
    SameBody(Without(NOTE.body, SORT_KEYS), NOTE.body);
    assert !Dotted("title") && "n1" in s'.table;
    RetitledNote();
    hide WriteStep, ReplayOf, Plain, Apply, DeletesOnly;
    UpdateReplayExact(cfg, NOTED, EDITED_DELETE, s');
  }

  lemma DottedWithout(body: Body)
    requires NoDotted(body)
    ensures NoDotted(Without(body, SORT_KEYS))
  {
  }

  lemma UncapturedUpdate(cfg: Config, s: State, w: Write, s': State)
    requires SORT_KEYS !in cfg.sortable && w.DoUpdate? && PlainWrite(w)
    requires WriteStep(cfg, s, w, s') && !Captured(cfg, s.table[w.id]) && NoDotted(s.table[w.id].body)
    ensures s'.activity == s.activity && NoDotted(s'.table[w.id].body)
  {
    hide WithSortKeys, UpdatedBody, NoDotted;
    UpdatedBodyClean(cfg, s.table[w.id], w.patch);
    StoredBody(cfg, UpdatedBody(cfg, s.table[w.id], w.patch).value);
  }

  lemma UpdateKeepsReplay(cfg: Config, s: State, w: Write, s': State)
    requires SORT_KEYS !in cfg.sortable && w.DoUpdate? && PlainWrite(w) && DeletesOnly(s, w)
    requires Rebuilds(cfg, s) && WriteStep(cfg, s, w, s')
    ensures Rebuilds(cfg, s')
  {
    hide WithSortKeys, ReplayOf, NoDotted, UpdatedBody, Plain, DeletesOnly;
    if Captured(cfg, s.table[w.id]) {
      UpdateReplayExact(cfg, s, w, s');
      forall i | i != w.id ensures ReplayOf(s'.activity, i) == ReplayOf(s.activity, i) {
        ReplayAppend(s.activity, s'.activity, i);
      }
    } else {
      UncapturedUpdate(cfg, s, w, s');
    }
  }

  // --- whole runs --------------------------------------------------------------------------------

  /** At every point of every run, the outbox counts each row's versions from 1 without a gap. */
  lemma {:induction false} OutboxVersionsCount(cfg: Config, trace: seq<State>, writes: seq<Write>, n: nat)
    requires Run(cfg, trace, writes) && n < |trace|
    ensures VersionsCount(trace[n])
  {
    if n > 0 {
      OutboxVersionsCount(cfg, trace, writes, n - 1);
      assert WriteStep(cfg, trace[n - 1], writes[n - 1], trace[n - 1 + 1]);
      WriteKeepsVersions(cfg, trace[n - 1], writes[n - 1], trace[n]);
    }
  }

  /** At every point of a run, activity rebuilds every captured row's body outside `custom`. */
  lemma {:induction false} ActivityRebuildsBodies(cfg: Config, trace: seq<State>, writes: seq<Write>, n: nat)
    requires SORT_KEYS !in cfg.sortable && Run(cfg, trace, writes) && n < |trace|
    requires forall i | 0 <= i < n :: PlainWrite(writes[i]) && DeletesOnly(trace[i], writes[i])
    ensures Rebuilds(cfg, trace[n])
  {
    hide WriteStep, DeletesOnly, PlainWrite;
    if n > 0 {
      ActivityRebuildsBodies(cfg, trace, writes, n - 1);
      var s, w := trace[n - 1], writes[n - 1];
      assert WriteStep(cfg, s, w, trace[n - 1 + 1]);
      assert PlainWrite(w) && DeletesOnly(s, w);
      if w.DoInsert? {
        InsertKeepsReplay(cfg, s, w, trace[n]);
      } else {
        UpdateKeepsReplay(cfg, s, w, trace[n]);
      }
    }
  }

  // --- custom values -----------------------------------------------------------------------------

  /** The row's `custom` object, if it has one, is within both caps. */
  ghost predicate RowWithinCaps(cfg: Config, row: Row) {
    "custom" in row.body ==>
      && row.body["custom"].Obj?
      && |row.body["custom"].fields| <= 32 && |cfg.p.rules.json(Obj(row.body["custom"].fields))| <= 8192
  }

  /** The payload came through the request fold: its `custom`, if any, is an object within the caps. */
  ghost predicate FoldedPayload(cfg: Config, w: Write) {
    var body := (if w.DoInsert? then w.values else w.patch).body;
    CUSTOM in body ==> match body[CUSTOM] case Some(Obj(c)) => WithinCaps(cfg.p.rules.json, c) case _ => false
  }

  /** The fold's output is such a payload. */
  lemma FoldGivesFoldedPayload(cfg: Config, rules: ValueRules, payload: Body, declared: set<string>, defs: seq<FieldDef>,
                               mode: Mode, w: Write)
    requires rules.json == cfg.p.rules.json && CUSTOM !in declared && Foldable(rules, payload, declared, defs, mode)
    requires var out := Folded(payload, declared, defs);
      var body := (if w.DoInsert? then w.values else w.patch).body;
      CUSTOM in body <==> CUSTOM in out
    requires var out := Folded(payload, declared, defs);
      var body := (if w.DoInsert? then w.values else w.patch).body;
      CUSTOM in body ==> body[CUSTOM] == Some(out[CUSTOM])
    ensures FoldedPayload(cfg, w)
  {
    FoldedMeaning(rules, payload, declared, defs, mode);
  }

  lemma CustomSurvivesKeys(cfg: Config, body: Body)
    requires SORT_KEYS !in cfg.sortable
    ensures Get(WithSortKeys(cfg.p.rules, body, cfg.sortable), CUSTOM) == Get(body, CUSTOM)
  {
    WithSortKeysFresh(cfg.p.rules, body, cfg.sortable);
    var b := WithSortKeys(cfg.p.rules, body, cfg.sortable);
    assert Get(Without(b, SORT_KEYS), CUSTOM) == Get(Without(body, SORT_KEYS), CUSTOM);
  }

  lemma FoldedWriteKeepsCaps(cfg: Config, s: State, w: Write, s': State)
    requires SORT_KEYS !in cfg.sortable && FoldedPayload(cfg, w) && WriteStep(cfg, s, w, s')
    requires forall id | id in s.table :: RowWithinCaps(cfg, s.table[id])
    ensures forall id | id in s'.table :: RowWithinCaps(cfg, s'.table[id])
  {
    hide WithSortKeys;
    if w.DoInsert? {
      CustomSurvivesKeys(cfg, Stored(w.values.body));
      assert Get(Stored(w.values.body), CUSTOM) == if CUSTOM in w.values.body then w.values.body[CUSTOM] else None;
    } else {
      var current := s.table[w.id];
      var body := UpdatedBody(cfg, current, w.patch).value;
      CustomSurvivesKeys(cfg, body);
      assert Get(Without(current.body, SORT_KEYS), CUSTOM) == Get(current.body, CUSTOM);
    }
  }

  /** In every state a run of folded writes reaches, every row's `custom` is within both caps. */
  lemma {:induction false} CustomStaysWithinCaps(cfg: Config, trace: seq<State>, writes: seq<Write>, n: nat)
    requires SORT_KEYS !in cfg.sortable && Run(cfg, trace, writes) && n < |trace|
    requires forall i | 0 <= i < n :: FoldedPayload(cfg, writes[i])
    ensures forall id | id in trace[n].table :: RowWithinCaps(cfg, trace[n].table[id])
  {
    hide WriteStep, FoldedPayload;
    if n > 0 {
      CustomStaysWithinCaps(cfg, trace, writes, n - 1);
      assert WriteStep(cfg, trace[n - 1], writes[n - 1], trace[n - 1 + 1]);
      assert FoldedPayload(cfg, writes[n - 1]);
      FoldedWriteKeepsCaps(cfg, trace[n - 1], writes[n - 1], trace[n]);
    }
  }

  /** An accepted folded patch keeps every custom value it does not mention. */
  lemma PatchKeepsOtherCustom(cfg: Config, s: State, w: Write, s': State, name: string)
    requires SORT_KEYS !in cfg.sortable && w.DoUpdate? && FoldedPayload(cfg, w) && WriteStep(cfg, s, w, s')
    requires var body := s.table[w.id].body;
      CUSTOM in body && body[CUSTOM].Obj? && name in body[CUSTOM].fields
    requires CUSTOM in w.patch.body ==> name !in w.patch.body[CUSTOM].value.fields
    ensures var body' := s'.table[w.id].body;
      && CUSTOM in body' && body'[CUSTOM].Obj? && name in body'[CUSTOM].fields
      && body'[CUSTOM].fields[name] == s.table[w.id].body[CUSTOM].fields[name]
  {
    hide WithSortKeys, WithinCaps;
    var current := s.table[w.id];
    var body := UpdatedBody(cfg, current, w.patch).value;
    CustomSurvivesKeys(cfg, body);
    assert Get(Without(current.body, SORT_KEYS), CUSTOM) == Get(current.body, CUSTOM);
  }
}
