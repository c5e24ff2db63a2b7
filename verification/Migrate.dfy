/**
 * Declared data migrations: plan, preflight, rename schema by schema, and rename back in reverse
 * when one fails. Each rename is one transaction; any of them may fail.
 */
module Migrate {
  import opened Wrappers
  import opened Rows
  import opened SchemaNames

  /** What a schema holds: its tables. */
  datatype Contents = Contents(tables: map<string, Table>)
  type Schemas = map<string, Contents>

  datatype DataMigration = DataMigration(fromCube: string, toCube: string)
  datatype Move = Move(fromSchema: string, toSchema: string)
  datatype MigrationError =
    | Conflict(fromCube: string, toCube: string)
    | Failed(fromSchema: string, toSchema: string, rollbackFailed: bool)

  // --- one rename --------------------------------------------------------------------------------

  predicate CanRename(s: Schemas, from: string, to: string) {
    from in s && to !in s
  }

  function Renamed(s: Schemas, from: string, to: string): Schemas
    requires CanRename(s, from, to)
  {
    (s - {from})[to := s[from]]
  }

  lemma RenameUndoes(s: Schemas, from: string, to: string)
    requires CanRename(s, from, to)
    ensures CanRename(Renamed(s, from, to), to, from)
    ensures Renamed(Renamed(s, from, to), to, from) == s
  {
  }

  /** The database as the application login sees it; `faults` says which statements go wrong. */
  class Database {
    var schemas: Schemas
    var clock: nat
    const faults: nat -> bool

    constructor (schemas: Schemas, faults: nat -> bool)
      ensures this.schemas == schemas
    {
      this.schemas, this.faults, this.clock := schemas, faults, 0;
    }

    /** One transaction: the whole schema moves when it can and this statement does not go wrong; otherwise nothing does. */
    method Rename(from: string, to: string) returns (ok: bool)
      modifies this
      ensures ok <==> CanRename(old(schemas), from, to) && !faults(old(clock))
      ensures schemas == if ok then Renamed(old(schemas), from, to) else old(schemas)
      ensures clock == old(clock) + 1
    {
      ok := CanRename(schemas, from, to) && !faults(clock);
      clock := clock + 1;
      if ok {
        schemas := Renamed(schemas, from, to);
      }
    }
  }

  /** Some of `n` statements, starting at the given one, goes wrong. */
  ghost predicate FaultIn(faults: nat -> bool, start: nat, n: nat) {
    exists k: nat :: start <= k < start + n && faults(k)
  }

  lemma FaultNext(faults: nat -> bool, start: nat, n: nat)
    ensures FaultIn(faults, start, n + 1) <==> FaultIn(faults, start, n) || faults(start + n)
    ensures !FaultIn(faults, start, 0)
  {
    if FaultIn(faults, start, n + 1) && !faults(start + n) {
      var k: nat :| start <= k < start + n + 1 && faults(k);
      assert k < start + n;
    }
  }

  // --- the plan ----------------------------------------------------------------------------------

  /** The first migration whose source and destination both exist. */
  function FirstConflict(s: Schemas, ms: seq<DataMigration>): Option<DataMigration> {
    if ms == [] then None
    else if SchemaName(ms[0].fromCube) in s && SchemaName(ms[0].toCube) in s then Some(ms[0])
    else FirstConflict(s, ms[1..])
  }

  /** One move for every migration whose source exists. */
  function PlanOf(s: Schemas, ms: seq<DataMigration>): seq<Move> {
    if ms == [] then []
    else
      (if SchemaName(ms[0].fromCube) in s then [Move(SchemaName(ms[0].fromCube), SchemaName(ms[0].toCube))] else [])
      + PlanOf(s, ms[1..])
  }

  lemma {:induction false} PlanIsClean(s: Schemas, ms: seq<DataMigration>)
    requires FirstConflict(s, ms).None?
    ensures forall mv | mv in PlanOf(s, ms) :: CanRename(s, mv.fromSchema, mv.toSchema)
  {
    if ms != [] { PlanIsClean(s, ms[1..]); }
  }

  // --- sequences of renames ----------------------------------------------------------------------

  /** The schemas after some moves one by one, when each of them can be made. */
  function After(s: Schemas, moves: seq<Move>): Option<Schemas> {
    if moves == [] then Some(s)
    else
      match After(s, moves[..|moves| - 1])
      case None => None
      case Some(t) => Step(t, moves[|moves| - 1])
  }

  function Step(s: Schemas, mv: Move): Option<Schemas> {
    if CanRename(s, mv.fromSchema, mv.toSchema) then Some(Renamed(s, mv.fromSchema, mv.toSchema)) else None
  }

  lemma AfterNext(s: Schemas, moves: seq<Move>, i: nat)
    requires i < |moves| && After(s, moves[..i]).Some?
    ensures After(s, moves[..i + 1]) == Step(After(s, moves[..i]).value, moves[i])
  {
    assert moves[..i + 1][..i] == moves[..i];
  }

  lemma {:induction false} AfterSome(s: Schemas, moves: seq<Move>, i: nat)
    requires i <= |moves| && After(s, moves).Some?
    ensures After(s, moves[..i]).Some?
    decreases |moves|
  {
    if i < |moves| {
      AfterSome(s, moves[..|moves| - 1], i);
      assert moves[..|moves| - 1][..i] == moves[..i];
    } else {
      assert moves[..i] == moves;
    }
  }

  lemma NoMoves(s: Schemas)
    ensures After(s, []) == Some(s)
  {
  }

  // --- conservation ------------------------------------------------------------------------------

  /** All contents in the database, each as often as some schema holds it. */
  ghost function Bag(s: Schemas): multiset<Contents>
    decreases |s|
  {
    if s == map[] then multiset{}
    else
      var k :| k in s;
      multiset{s[k]} + Bag(s - {k})
  }

  lemma RemoveTwo(s: Schemas, k: string, c: string)
    ensures (s - {c}) - {k} == (s - {k}) - {c}
    ensures k in s && k != c ==> k in s - {c} && (s - {c})[k] == s[k]
    ensures k in s ==> |s - {k}| < |s|
  {
    if k in s { assert s.Keys == (s - {k}).Keys + {k}; }
  }

  lemma {:induction false} BagTake(s: Schemas, k: string)
    requires k in s
    ensures Bag(s) == multiset{s[k]} + Bag(s - {k})
    decreases |s|
  {
    var c :| c in s && Bag(s) == multiset{s[c]} + Bag(s - {c});
    if c != k {
      RemoveTwo(s, k, c);
      RemoveTwo(s, c, k);
      BagTake(s - {c}, k);
      BagTake(s - {k}, c);
    }
  }

  lemma RenameConserves(s: Schemas, from: string, to: string)
    requires CanRename(s, from, to)
    ensures Bag(Renamed(s, from, to)) == Bag(s)
  {
    BagTake(s, from);
    BagTake(Renamed(s, from, to), to);
    RenamedRest(s, from, to);
  }

  lemma RenamedRest(s: Schemas, from: string, to: string)
    requires CanRename(s, from, to)
    ensures Renamed(s, from, to) - {to} == s - {from}
  {
  }

  lemma {:induction false} RunConserves(s: Schemas, moves: seq<Move>)
    requires After(s, moves).Some?
    ensures Bag(After(s, moves).value) == Bag(s)
  {
    hide Bag, Renamed;
    if moves != [] {
      var init, last := moves[..|moves| - 1], moves[|moves| - 1];
      RunConserves(s, init);
      RenameConserves(After(s, init).value, last.fromSchema, last.toSchema);
    }
  }

  // --- the batch ---------------------------------------------------------------------------------

  method Plan(db: Database, ms: seq<DataMigration>) returns (r: Result<seq<Move>, MigrationError>)
    ensures match FirstConflict(db.schemas, ms)
      case Some(m) => r == Err(Conflict(m.fromCube, m.toCube))
      case None => r == Ok(PlanOf(db.schemas, ms))
  {
    var plan := [];
    for i := 0 to |ms|
      invariant FirstConflict(db.schemas, ms) == FirstConflict(db.schemas, ms[i..])
      invariant PlanOf(db.schemas, ms) == plan + PlanOf(db.schemas, ms[i..])
    {
      var from, to := SchemaName(ms[i].fromCube), SchemaName(ms[i].toCube);
      assert ms[i..][1..] == ms[i + 1..];
      if from !in db.schemas {
        continue;
      }
      if to in db.schemas {
        return Err(Conflict(ms[i].fromCube, ms[i].toCube));
      }
      plan := plan + [Move(from, to)];
    }
    assert ms[|ms|..] == [] && plan + [] == plan;
    r := Ok(plan);
  }

  /** Rename back, last move first; one that fails is remembered and the rest still run. It fails only by a fault it meets. */
  method Rollback(db: Database, ghost start: Schemas, done: seq<Move>) returns (failed: bool)
    requires After(start, done) == Some(db.schemas)
    modifies db
    ensures !failed ==> db.schemas == start
    ensures Bag(db.schemas) == Bag(start)
    ensures db.clock == old(db.clock) + |done|
    ensures failed <==> FaultIn(db.faults, old(db.clock), |done|)
  {
    hide Bag, Renamed, FaultIn;
    failed := false;
    var i := |done|;
    assert done[..i] == done;
    RunConserves(start, done);
    FaultNext(db.faults, db.clock, 0);
    while i > 0
      invariant 0 <= i <= |done| && After(start, done[..i]).Some?
      invariant !failed ==> After(start, done[..i]) == Some(db.schemas)
      invariant Bag(db.schemas) == Bag(start)
      invariant db.clock == old(db.clock) + |done| - i
      invariant failed <==> FaultIn(db.faults, old(db.clock), |done| - i)
    {
      FaultNext(db.faults, old(db.clock), |done| - i);
      i := i - 1;
      var back := done[i];
      assert done[..i + 1][..i] == done[..i];
      RenameUndoes(After(start, done[..i]).value, back.fromSchema, back.toSchema);
      ghost var before := db.schemas;
      var ok := db.Rename(back.toSchema, back.fromSchema);
      if ok {
        RenameConserves(before, back.toSchema, back.fromSchema);
      } else {
        failed := true;
      }
    }
  }

  /**
   * How a batch whose first statement is `clock` stops at its move `i`: the moves before it can be made and
   * are, it cannot be made or goes wrong, and the rollback fails exactly when one of its statements does.
   */
  ghost predicate StopsAt(s: Schemas, plan: seq<Move>, faults: nat -> bool, clock: nat, i: nat, rollbackFailed: bool) {
    && i < |plan| && After(s, plan[..i]).Some? && !FaultIn(faults, clock, i)
    && (!CanRename(After(s, plan[..i]).value, plan[i].fromSchema, plan[i].toSchema) || faults(clock + i))
    && (rollbackFailed <==> FaultIn(faults, clock + i + 1, i))
  }

  /**
   * The whole batch. A conflict moves nothing; it succeeds exactly when there is none, the plan can be
   * carried out and no statement it runs goes wrong, and then performs exactly the plan; a failure names the
   * move that stopped it, and restores the start unless a statement of its rollback goes wrong; whatever
   * happens, no contents are lost.
   */
  method MigrateDataSchemas(db: Database, ms: seq<DataMigration>) returns (r: Result<(), MigrationError>)
    modifies db
    ensures r.Err? && r.error.Conflict? <==> FirstConflict(old(db.schemas), ms).Some?
    ensures r.Err? && r.error.Conflict? ==> db.schemas == old(db.schemas)
    ensures var plan := PlanOf(old(db.schemas), ms);
      r.Ok? <==> (FirstConflict(old(db.schemas), ms).None? && After(old(db.schemas), plan).Some?
                  && !FaultIn(db.faults, old(db.clock), |plan|))
    ensures r.Ok? ==> After(old(db.schemas), PlanOf(old(db.schemas), ms)) == Some(db.schemas)
    ensures r.Err? && r.error.Failed? ==>
      var plan := PlanOf(old(db.schemas), ms);
      exists i: nat :: StopsAt(old(db.schemas), plan, db.faults, old(db.clock), i, r.error.rollbackFailed)
                  && plan[i] == Move(r.error.fromSchema, r.error.toSchema)
    ensures r.Err? && r.error.Failed? && !r.error.rollbackFailed ==> db.schemas == old(db.schemas)
    ensures Bag(db.schemas) == Bag(old(db.schemas))
  {
    hide Bag, Renamed, After, PlanOf, FirstConflict, FaultIn;
    ghost var start := db.schemas;
    var planned := Plan(db, ms);
    if planned.Err? {
      return Err(planned.error);
    }
    var plan := planned.value;
    var done := [];
    NoMoves(start);
    FaultNext(db.faults, db.clock, 0);
    for i := 0 to |plan|
      invariant done == plan[..i] && After(start, done) == Some(db.schemas)
      invariant db.clock == old(db.clock) + i && !FaultIn(db.faults, old(db.clock), i)
    {
      var mv := plan[i];
      AfterNext(start, plan, i);
      FaultNext(db.faults, old(db.clock), i);
      var ok := db.Rename(mv.fromSchema, mv.toSchema);
      if !ok {
        if After(start, plan).Some? {
          AfterSome(start, plan, i + 1);
          FaultEarlier(db.faults, old(db.clock), i + 1, |plan|);
        }
        var rollbackFailed := Rollback(db, start, done);
        assert StopsAt(start, plan, db.faults, old(db.clock), i, rollbackFailed);
        return Err(Failed(mv.fromSchema, mv.toSchema, rollbackFailed));
      }
      done := done + [mv];
      assert plan[..i + 1] == done;
    }
    assert plan[..|plan|] == plan;
    RunConserves(start, plan);
    r := Ok(());
  }

  lemma FaultEarlier(faults: nat -> bool, start: nat, n: nat, m: nat)
    requires n <= m && FaultIn(faults, start, n)
    ensures FaultIn(faults, start, m)
  {
  }

  // --- what a completed plan means ---------------------------------------------------------------

  /** The source of every move is gone and its data is at the destination. */
  ghost predicate Delivered(s: Schemas, t: Schemas, mv: Move) {
    mv.fromSchema in s && mv.fromSchema !in t && mv.toSchema in t && t[mv.toSchema] == s[mv.fromSchema]
  }

  /** A schema is where and what it was. */
  ghost predicate Untouched(s: Schemas, t: Schemas, x: string) {
    (x in t <==> x in s) && (x in s ==> t[x] == s[x])
  }

  ghost predicate Names(plan: seq<Move>, x: string) {
    exists mv :: mv in plan && (x == mv.fromSchema || x == mv.toSchema)
  }

  /**
   * After a plan made on `s` has run, every planned source's data sits at its destination, and every
   * schema no move names is where and what it was. No two moves share a source or a destination.
   */
  lemma {:induction false} CompletedPlan(s: Schemas, plan: seq<Move>)
    requires After(s, plan).Some?
    requires forall mv | mv in plan :: CanRename(s, mv.fromSchema, mv.toSchema)
    ensures forall mv | mv in plan :: Delivered(s, After(s, plan).value, mv)
    ensures forall x | !Names(plan, x) :: Untouched(s, After(s, plan).value, x)
    ensures forall i, j | 0 <= i < j < |plan| ::
      plan[i].fromSchema != plan[j].fromSchema && plan[i].toSchema != plan[j].toSchema
  {
    if plan != [] {
      var init, last := plan[..|plan| - 1], plan[|plan| - 1];
      assert plan == init + [last];
      assert last in plan && forall mv | mv in init :: mv in plan;
      CompletedPlan(s, init);
      hide CanRename, Renamed, Delivered, Untouched, Names;
      var t := After(s, init).value;
      CompletedStep(s, t, init, last);
      forall i, j | 0 <= i < j < |plan|
        ensures plan[i].fromSchema != plan[j].fromSchema && plan[i].toSchema != plan[j].toSchema
      {
        if j == |init| { assert plan[i] in init; }
      }
    }
  }

  /** One more planned move on top of moves already made. */
  lemma CompletedStep(s: Schemas, t: Schemas, init: seq<Move>, last: Move)
    requires CanRename(s, last.fromSchema, last.toSchema) && CanRename(t, last.fromSchema, last.toSchema)
    requires forall mv | mv in init :: CanRename(s, mv.fromSchema, mv.toSchema) && Delivered(s, t, mv)
    requires forall x | !Names(init, x) :: Untouched(s, t, x)
    ensures var u := Renamed(t, last.fromSchema, last.toSchema);
      && (forall mv | mv in init + [last] :: Delivered(s, u, mv))
      && (forall x | !Names(init + [last], x) :: Untouched(s, u, x))
    ensures forall mv | mv in init :: mv.fromSchema != last.fromSchema && mv.toSchema != last.toSchema
  {
    var u := Renamed(t, last.fromSchema, last.toSchema);
    forall mv | mv in init
      ensures Delivered(s, u, mv) && mv.fromSchema != last.fromSchema && mv.toSchema != last.toSchema
    {
      MoveKeeps(s, t, mv, last);
    }
    assert Untouched(s, t, last.fromSchema);
    forall x | !Names(init + [last], x) ensures Untouched(s, u, x) {
      NamesMore(init, last, x);
      hide Names;
    }
  }

  ghost predicate DistinctEnds(plan: seq<Move>) {
    forall i, j | 0 <= i < j < |plan| :: plan[i].fromSchema != plan[j].fromSchema && plan[i].toSchema != plan[j].toSchema
  }

  /** A plan free of conflicts can be carried out exactly when no two of its moves share a source or a destination. */
  lemma {:induction false} PlanCompletes(s: Schemas, plan: seq<Move>)
    requires forall mv | mv in plan :: CanRename(s, mv.fromSchema, mv.toSchema)
    ensures After(s, plan).Some? <==> DistinctEnds(plan)
  {
    if After(s, plan).Some? {
      CompletedPlan(s, plan);
    }
    if plan != [] && DistinctEnds(plan) {
      var init, last := plan[..|plan| - 1], plan[|plan| - 1];
      assert plan == init + [last] && last in plan;
      assert forall mv | mv in init :: mv in plan;
      PlanCompletes(s, init);
      CompletedPlan(s, init);
      forall mv | mv in init ensures mv.fromSchema != last.fromSchema && mv.toSchema != last.toSchema {
        var i :| 0 <= i < |init| && init[i] == mv;
        assert plan[i] == mv && plan[|init|] == last;
      }
      var t := After(s, init).value;
      assert !Names(init, last.fromSchema) && !Names(init, last.toSchema);
      assert Untouched(s, t, last.fromSchema) && Untouched(s, t, last.toSchema);
    }
  }

  lemma NamesMore(init: seq<Move>, last: Move, x: string)
    ensures Names(init + [last], x) <==> Names(init, x) || x == last.fromSchema || x == last.toSchema
  {
    assert last in init + [last];
    if mv :| mv in init && (x == mv.fromSchema || x == mv.toSchema) { assert mv in init + [last]; }
  }

  lemma MoveKeeps(s: Schemas, t: Schemas, mv: Move, last: Move)
    requires CanRename(s, mv.fromSchema, mv.toSchema) && CanRename(s, last.fromSchema, last.toSchema)
    requires CanRename(t, last.fromSchema, last.toSchema) && Delivered(s, t, mv)
    ensures mv.fromSchema != last.fromSchema && mv.toSchema != last.toSchema
    ensures Delivered(s, Renamed(t, last.fromSchema, last.toSchema), mv)
  {
  }

  /** A migration that reports success has moved every present source and nothing else. */
  lemma SuccessfulMigration(s: Schemas, ms: seq<DataMigration>, t: Schemas)
    requires FirstConflict(s, ms).None? && After(s, PlanOf(s, ms)) == Some(t)
    ensures forall m | m in ms && SchemaName(m.fromCube) in s ::
      Delivered(s, t, Move(SchemaName(m.fromCube), SchemaName(m.toCube)))
    ensures forall x | !(exists m :: m in ms && SchemaName(m.fromCube) in s
                                     && (x == SchemaName(m.fromCube) || x == SchemaName(m.toCube))) ::
      Untouched(s, t, x)
  {
    hide SchemaName, Delivered, Untouched;
    var plan := PlanOf(s, ms);
    PlanIsClean(s, ms);
    PlanMembers(s, ms);
    CompletedPlan(s, plan);
    forall x | !(exists m :: m in ms && SchemaName(m.fromCube) in s
                             && (x == SchemaName(m.fromCube) || x == SchemaName(m.toCube)))
      ensures !Names(plan, x)
    {
      forall mv | mv in plan ensures x != mv.fromSchema && x != mv.toSchema {
        var m :| m in ms && SchemaName(m.fromCube) in s && mv == Move(SchemaName(m.fromCube), SchemaName(m.toCube));
      }
    }
  }

  lemma {:induction false} PlanMembers(s: Schemas, ms: seq<DataMigration>)
    ensures forall m | m in ms && SchemaName(m.fromCube) in s :: Move(SchemaName(m.fromCube), SchemaName(m.toCube)) in PlanOf(s, ms)
    ensures forall mv | mv in PlanOf(s, ms) ::
      exists m :: m in ms && SchemaName(m.fromCube) in s && mv == Move(SchemaName(m.fromCube), SchemaName(m.toCube))
  {
    if ms != [] {
      PlanMembers(s, ms[1..]);
      assert ms[0] in ms;
      assert forall m | m in ms[1..] :: m in ms;
    }
  }
}
