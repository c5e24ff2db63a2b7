/**
 * The background repair of sort keys: rows are walked by id in chunks, stale keys are recomputed
 * outside the database, and each chunk is written back guarded by a hash of the body it keyed.
 * `RekeyEndsFresh` is about every interleaving of those steps with other writers; the class method
 * at the end is the same walk with nobody else writing.
 */
module Rekey {
  import opened Wrappers
  import opened Text
  import opened JsonValues
  import opened SortKeys
  import opened Listings
  import opened Rows

  const REKEY_CHUNK := 500

  /** md5 of the body without its keys. The hash is taken to be injective, so it keeps what it hashed. */
  datatype Digest = Md5(body: Body)

  function DigestOf(body: Body): Digest {
    Md5(Without(body, SORT_KEYS))
  }

  /** One stale row as the walk remembers it: the hash it read and the keys it computed. */
  datatype Repair = Repair(h: Digest, keys: Option<Json>)

  /** A column write: `_sort` replaced, or removed when the body has no sortable field. */
  function WriteKeys(body: Body, keys: Option<Json>): Body {
    match keys
    case None => Without(body, SORT_KEYS)
    case Some(k) => body[SORT_KEYS := k]
  }

  /** `body ?| fields || '_sort'`: only such rows are read at all. */
  predicate Probed(body: Body, fields: seq<string>) {
    SORT_KEYS in body || exists f | f in fields :: f in body
  }

  lemma UnprobedIsFresh(rules: TextRules, body: Body, fields: seq<string>)
    requires !Probed(body, fields)
    ensures FreshBody(rules, body, fields)
  {
    assert Present(body, fields) == {};
  }

  function ByBytes(): Order {
    (a: string, b: string) => TextLess(a, b)
  }

  lemma ByBytesTotal(s: set<string>)
    ensures StrictTotal(ByBytes(), s)
  {
    TextStrictTotal();
  }

  function Candidates(t: Table, fields: seq<string>, only: Option<set<string>>, after: string): set<string> {
    set id | id in t && Probed(t[id].body, fields) && (only.Some? ==> id in only.value) && TextLess(after, id)
  }

  /** The next rows after the cursor, in byte order of their ids. */
  function Chunk(t: Table, fields: seq<string>, only: Option<set<string>>, after: string): (chunk: seq<string>)
    ensures |chunk| <= REKEY_CHUNK
    ensures forall id | id in chunk :: id in Candidates(t, fields, only, after)
  {
    ByBytesTotal(Candidates(t, fields, only, after));
    var l := Listing(ByBytes(), Candidates(t, fields, only, after));
    assert forall id | id in l :: id in Candidates(t, fields, only, after);
    if |l| <= REKEY_CHUNK then l else l[..REKEY_CHUNK]
  }

  /** A short chunk holds every candidate; a full one holds every candidate up to its last id. */
  lemma ChunkCovers(t: Table, fields: seq<string>, only: Option<set<string>>, after: string, id: string)
    requires id in Candidates(t, fields, only, after)
    ensures var chunk := Chunk(t, fields, only, after);
      chunk != [] && (id in chunk || (|chunk| == REKEY_CHUNK && TextLess(chunk[|chunk| - 1], id)))
  {
    ByBytesTotal(Candidates(t, fields, only, after));
    var l := Listing(ByBytes(), Candidates(t, fields, only, after));
    var chunk := Chunk(t, fields, only, after);
    assert id in l;
    var i :| 0 <= i < |l| && l[i] == id;
    if i < |chunk| {
      assert chunk[i] == id;
    } else {
      SortedAt(ByBytes(), l, |chunk| - 1, i);
    }
  }

  function Repairs(rules: TextRules, t: Table, fields: seq<string>, chunk: seq<string>): map<string, Repair> {
    map id | id in chunk && id in t && !FreshBody(rules, t[id].body, fields)
      :: Repair(DigestOf(t[id].body), SortKeysFor(rules, t[id].body, fields))
  }

  function RepairRow(row: Row, r: Repair): Row {
    if DigestOf(row.body) == r.h then row.(body := WriteKeys(row.body, r.keys)) else row
  }

  /** The guarded UPDATE: a row changed since it was read keeps its body. */
  function GuardedWrite(t: Table, repairs: map<string, Repair>): Table {
    map id | id in t :: if id in repairs then RepairRow(t[id], repairs[id]) else t[id]
  }

  // --- what a write can and cannot do ----------------------------------------------------------

  ghost predicate Sound(rules: TextRules, fields: seq<string>, r: Repair) {
    r.keys == SortKeysFor(rules, r.h.body, fields)
  }

  lemma DigestKeys(rules: TextRules, body: Body, fields: seq<string>)
    requires SORT_KEYS !in fields
    ensures SortKeysFor(rules, DigestOf(body).body, fields) == SortKeysFor(rules, body, fields)
  {
    assert Without(DigestOf(body).body, SORT_KEYS) == Without(body, SORT_KEYS);
    KeysIgnoreSort(rules, body, DigestOf(body).body, fields);
  }

  /** Outside `_sort` nothing moves; when the guard lets the write through, the row ends fresh. */
  lemma RepairRowSafe(rules: TextRules, fields: seq<string>, row: Row, r: Repair)
    requires SORT_KEYS !in fields && Sound(rules, fields, r)
    ensures var row' := RepairRow(row, r);
      && row'.(body := row.body) == row
      && Without(row'.body, SORT_KEYS) == Without(row.body, SORT_KEYS)
      && (DigestOf(row.body) == r.h ==> FreshBody(rules, row'.body, fields))
  {
    var row' := RepairRow(row, r);
    DigestKeys(rules, row.body, fields);
    assert Without(row'.body, SORT_KEYS) == Without(row.body, SORT_KEYS);
    KeysIgnoreSort(rules, row.body, row'.body, fields);
  }

  /** The guard lets a write through exactly when the row's body outside `_sort` is still the one that was read. */
  lemma GuardExactly(row: Row, read: Body, keys: Option<Json>)
    ensures var row' := RepairRow(row, Repair(DigestOf(read), keys));
      if Without(row.body, SORT_KEYS) == Without(read, SORT_KEYS) then Get(row'.body, SORT_KEYS) == keys
      else row' == row
  {
  }

  // --- the interleaved walk --------------------------------------------------------------------

  datatype Pc =
    | Reading(after: string)
    | Writing(repairs: map<string, Repair>, last: string, more: bool)
    | Done

  datatype State = State(table: Table, pc: Pc)

  /** Read the next chunk and compute its keys; nothing is written yet. */
  function ReadStep(rules: TextRules, fields: seq<string>, s: State): State
    requires s.pc.Reading?
  {
    var chunk := Chunk(s.table, fields, None, s.pc.after);
    if chunk == [] then s.(pc := Done)
    else s.(pc := Writing(Repairs(rules, s.table, fields, chunk), chunk[|chunk| - 1], |chunk| == REKEY_CHUNK))
  }

  /** Write the repairs, then move the cursor or stop after a short chunk. */
  function WriteStep(s: State): State
    requires s.pc.Writing?
  {
    State(GuardedWrite(s.table, s.pc.repairs), if s.pc.more then Reading(s.pc.last) else Done)
  }

  /** Another writer: every row it touches is left with fresh keys, and ids are never empty. */
  ghost predicate WriterStep(rules: TextRules, fields: seq<string>, t: Table, t': Table) {
    && "" !in t'
    && forall id | id in t' :: (id in t && t'[id] == t[id]) || FreshBody(rules, t'[id].body, fields)
  }

  ghost predicate Step(rules: TextRules, fields: seq<string>, s: State, s': State) {
    || (s.pc.Reading? && s' == ReadStep(rules, fields, s))
    || (s.pc.Writing? && s' == WriteStep(s))
    || (s'.pc == s.pc && WriterStep(rules, fields, s.table, s'.table))
  }

  ghost predicate Run(rules: TextRules, fields: seq<string>, trace: seq<State>) {
    && fields != [] && trace != []
    && trace[0].pc == Reading("") && "" !in trace[0].table
    && forall i | 0 <= i < |trace| - 1 :: Step(rules, fields, trace[i], trace[i + 1])
  }

  /** Still to be repaired by the pending write, which will get it right. */
  ghost predicate Pending(repairs: map<string, Repair>, id: string, body: Body) {
    id in repairs && DigestOf(body) == repairs[id].h
  }

  ghost predicate Inv(rules: TextRules, fields: seq<string>, s: State) {
    && "" !in s.table
    && match s.pc
       case Reading(after) => forall id | id in s.table && !TextLess(after, id) :: FreshBody(rules, s.table[id].body, fields)
       case Writing(repairs, last, more) =>
         && (forall id | id in repairs :: Sound(rules, fields, repairs[id]))
         && (forall id | id in s.table && (!more || !TextLess(last, id)) ::
               FreshBody(rules, s.table[id].body, fields) || Pending(repairs, id, s.table[id].body))
       case Done => forall id | id in s.table :: FreshBody(rules, s.table[id].body, fields)
  }

  lemma InitialInv(rules: TextRules, fields: seq<string>, s: State)
    requires s.pc == Reading("") && "" !in s.table
    ensures Inv(rules, fields, s)
  {
    forall id | id in s.table ensures TextLess("", id) {
      assert Codes(id) != [];
    }
  }

  lemma ReadKeepsInv(rules: TextRules, fields: seq<string>, s: State)
    requires SORT_KEYS !in fields && s.pc.Reading? && Inv(rules, fields, s)
    ensures Inv(rules, fields, ReadStep(rules, fields, s))
  {
    hide FreshBody, Candidates, Chunk, SortKeysFor;
    var chunk := Chunk(s.table, fields, None, s.pc.after);
    var repairs := Repairs(rules, s.table, fields, chunk);
    forall id | id in repairs ensures Sound(rules, fields, repairs[id]) {
      DigestKeys(rules, s.table[id].body, fields);
    }
    forall id | id in s.table
      ensures FreshBody(rules, s.table[id].body, fields) || Pending(repairs, id, s.table[id].body)
        || (chunk != [] && |chunk| == REKEY_CHUNK && TextLess(chunk[|chunk| - 1], id))
    {
      ReadRow(rules, s.table, fields, s.pc.after, id);
    }
  }

  lemma ReadRow(rules: TextRules, t: Table, fields: seq<string>, after: string, id: string)
    requires id in t && (!TextLess(after, id) ==> FreshBody(rules, t[id].body, fields))
    ensures var chunk := Chunk(t, fields, None, after);
      || FreshBody(rules, t[id].body, fields)
      || Pending(Repairs(rules, t, fields, chunk), id, t[id].body)
      || (chunk != [] && |chunk| == REKEY_CHUNK && TextLess(chunk[|chunk| - 1], id))
  {
    if !FreshBody(rules, t[id].body, fields) {
      if !Probed(t[id].body, fields) { UnprobedIsFresh(rules, t[id].body, fields); }
      ChunkCovers(t, fields, None, after, id);
    }
  }

  lemma WriteKeepsInv(rules: TextRules, fields: seq<string>, s: State)
    requires SORT_KEYS !in fields && s.pc.Writing? && Inv(rules, fields, s)
    ensures Inv(rules, fields, WriteStep(s))
  {
    hide FreshBody, RepairRow, Sound;
    var t' := WriteStep(s).table;
    forall id | id in s.table && (FreshBody(rules, s.table[id].body, fields) || Pending(s.pc.repairs, id, s.table[id].body))
      ensures FreshBody(rules, t'[id].body, fields)
    {
      if id in s.pc.repairs {
        RepairedRow(rules, fields, s.table[id], s.pc.repairs[id]);
      }
    }
  }

  lemma RepairedRow(rules: TextRules, fields: seq<string>, row: Row, r: Repair)
    requires SORT_KEYS !in fields && Sound(rules, fields, r)
    requires FreshBody(rules, row.body, fields) || DigestOf(row.body) == r.h
    ensures FreshBody(rules, RepairRow(row, r).body, fields)
  {
    RepairRowSafe(rules, fields, row, r);
  }

  lemma WriterKeepsInv(rules: TextRules, fields: seq<string>, s: State, t': Table)
    requires Inv(rules, fields, s) && WriterStep(rules, fields, s.table, t')
    ensures Inv(rules, fields, s.(table := t'))
  {
    hide FreshBody;
  }

  lemma {:induction false} RunKeepsInv(rules: TextRules, fields: seq<string>, trace: seq<State>, i: nat)
    requires SORT_KEYS !in fields && Run(rules, fields, trace) && i < |trace|
    ensures Inv(rules, fields, trace[i])
  {
    if i == 0 {
      InitialInv(rules, fields, trace[0]);
    } else {
      RunKeepsInv(rules, fields, trace, i - 1);
      var s, s' := trace[i - 1], trace[i];
      assert Step(rules, fields, trace[i - 1], trace[i - 1 + 1]);
      if s.pc.Reading? && s' == ReadStep(rules, fields, s) {
        ReadKeepsInv(rules, fields, s);
      } else if s.pc.Writing? && s' == WriteStep(s) {
        WriteKeepsInv(rules, fields, s);
      } else {
        WriterKeepsInv(rules, fields, s, s'.table);
        assert s' == s.(table := s'.table);
      }
    }
  }

  /** Whenever the walk has ended, whoever else wrote meanwhile, every row's keys are fresh. */
  lemma RekeyEndsFresh(rules: TextRules, fields: seq<string>, trace: seq<State>, i: nat)
    requires SORT_KEYS !in fields && Run(rules, fields, trace) && i < |trace| && trace[i].pc.Done?
    ensures forall id | id in trace[i].table :: FreshBody(rules, trace[i].table[id].body, fields)
  {
    RunKeepsInv(rules, fields, trace, i);
  }

  /**
   * In every run, from a state that reads after `after` on: the cursor is still there as long as nothing
   * but other writers has run, and has moved forward as soon as a chunk has been read.
   */
  ghost predicate Advanced(trace: seq<State>, after: string, i: nat, j: nat)
    requires i <= j < |trace|
  {
    match trace[j].pc
    case Reading(now) => TextLess(after, now) || forall k | i <= k <= j :: trace[k].pc == Reading(after)
    case Writing(_, last, _) => TextLess(after, last)
    case Done => true
  }

  lemma {:induction false} CursorAdvances(rules: TextRules, fields: seq<string>, trace: seq<State>, i: nat, j: nat)
    requires Run(rules, fields, trace) && i <= j < |trace| && trace[i].pc.Reading?
    ensures Advanced(trace, trace[i].pc.after, i, j)
    decreases j
  {
    if i < j {
      hide ReadStep, WriterStep, TextLess;
      CursorAdvances(rules, fields, trace, i, j - 1);
      assert Step(rules, fields, trace[j - 1], trace[j - 1 + 1]);
      var s := trace[j - 1];
      if s.pc.Reading? && trace[j] == ReadStep(rules, fields, s) {
        ReadsAhead(rules, fields, s, trace[i].pc.after);
      }
    }
  }

  /** What a read finds lies after the cursor, and so after any earlier one. */
  lemma ReadsAhead(rules: TextRules, fields: seq<string>, s: State, before: string)
    requires s.pc.Reading?
    ensures var s' := ReadStep(rules, fields, s);
      && (s'.pc.Writing? ==> TextLess(s.pc.after, s'.pc.last) && (TextLess(before, s.pc.after) ==> TextLess(before, s'.pc.last)))
      && !s'.pc.Reading?
  {
    hide LexLess, Codes, Repairs;
    var chunk := Chunk(s.table, fields, None, s.pc.after);
    if chunk != [] {
      assert chunk[|chunk| - 1] in Candidates(s.table, fields, None, s.pc.after);
      if TextLess(before, s.pc.after) { LexTransitive(Codes(before), Codes(s.pc.after), Codes(chunk[|chunk| - 1])); }
    }
  }

  /** No step of the walk touches a row outside `_sort`, at any point of any run. */
  lemma RekeyTouchesOnlyKeys(rules: TextRules, fields: seq<string>, trace: seq<State>, i: nat)
    requires SORT_KEYS !in fields && Run(rules, fields, trace) && i < |trace| && trace[i].pc.Writing?
    ensures var t, t' := trace[i].table, WriteStep(trace[i]).table;
      && t'.Keys == t.Keys
      && forall id | id in t ::
           t'[id].(body := t[id].body) == t[id] && Without(t'[id].body, SORT_KEYS) == Without(t[id].body, SORT_KEYS)
  {
    hide RepairRow, Sound;
    RunKeepsInv(rules, fields, trace, i);
    var s := trace[i];
    forall id | id in s.table
      ensures var row := WriteStep(s).table[id];
        row.(body := s.table[id].body) == s.table[id]
        && Without(row.body, SORT_KEYS) == Without(s.table[id].body, SORT_KEYS)
    {
      if id in s.pc.repairs {
        RepairRowSafe(rules, fields, s.table[id], s.pc.repairs[id]);
      }
    }
  }

  // --- the walk on its own ---------------------------------------------------------------------

  /** A row as the walk leaves it. */
  function RekeyedRow(rules: TextRules, fields: seq<string>, row: Row): Row {
    if FreshBody(rules, row.body, fields) then row
    else row.(body := WriteKeys(row.body, SortKeysFor(rules, row.body, fields)))
  }

  predicate InScope(only: Option<set<string>>, id: string) {
    id != "" && (only.Some? ==> id in only.value)
  }

  /** The table after a whole walk, over every row or over the named ones only. */
  function Rekeyed(rules: TextRules, fields: seq<string>, only: Option<set<string>>, t: Table): Table {
    map id | id in t :: if fields != [] && InScope(only, id) then RekeyedRow(rules, fields, t[id]) else t[id]
  }

  /** The walk repairs what it looks at, changes nothing but keys, and finds nothing to do twice. */
  lemma RekeyedMeaning(rules: TextRules, fields: seq<string>, only: Option<set<string>>, t: Table)
    requires SORT_KEYS !in fields && fields != []
    ensures var t' := Rekeyed(rules, fields, only, t);
      && (forall id | id in t && InScope(only, id) :: FreshBody(rules, t'[id].body, fields))
      && (forall id | id in t :: FreshBody(rules, t[id].body, fields) || !InScope(only, id) ==> t'[id] == t[id])
      && (forall id | id in t :: Without(t'[id].body, SORT_KEYS) == Without(t[id].body, SORT_KEYS))
      && Rekeyed(rules, fields, only, t') == t'
  {
    hide FreshBody, RekeyedRow;
    var t' := Rekeyed(rules, fields, only, t);
    forall id | id in t
      ensures var row := RekeyedRow(rules, fields, t[id]);
        && FreshBody(rules, row.body, fields)
        && RekeyedRow(rules, fields, row) == row
        && (FreshBody(rules, t[id].body, fields) ==> row == t[id])
        && Without(row.body, SORT_KEYS) == Without(t[id].body, SORT_KEYS)
    {
      RekeyedRowMeaning(rules, fields, t[id]);
    }
  }

  lemma RekeyedRowMeaning(rules: TextRules, fields: seq<string>, row: Row)
    requires SORT_KEYS !in fields
    ensures var row' := RekeyedRow(rules, fields, row);
      && FreshBody(rules, row'.body, fields)
      && RekeyedRow(rules, fields, row') == row'
      && (FreshBody(rules, row.body, fields) ==> row' == row)
      && Without(row'.body, SORT_KEYS) == Without(row.body, SORT_KEYS)
  {
    var r := Repair(DigestOf(row.body), SortKeysFor(rules, row.body, fields));
    DigestKeys(rules, row.body, fields);
    RepairRowSafe(rules, fields, row, r);
  }

  /** Rows up to the cursor are done, rows after it are as they were. */
  ghost predicate WalkedTo(rules: TextRules, fields: seq<string>, only: Option<set<string>>, start: Table, now: Table, after: string) {
    && now.Keys == start.Keys
    && forall id | id in start :: now[id] == if TextLess(after, id) then start[id] else Rekeyed(rules, fields, only, start)[id]
  }

  lemma ChunkRow(rules: TextRules, fields: seq<string>, only: Option<set<string>>, start: Table, now: Table, after: string, id: string)
    requires fields != [] && "" !in Candidates(now, fields, only, after) && id in start
    requires WalkedTo(rules, fields, only, start, now, after)
    ensures var chunk := Chunk(now, fields, only, after);
      var next := GuardedWrite(now, Repairs(rules, now, fields, chunk));
      if |chunk| == REKEY_CHUNK && TextLess(chunk[|chunk| - 1], id) && TextLess(after, id) then next[id] == now[id]
      else next[id] == Rekeyed(rules, fields, only, start)[id]
  {
    hide FreshBody, SortKeysFor, Candidates, Chunk, Probed;
    var chunk := Chunk(now, fields, only, after);
    CandidateFacts(now, fields, only, after, id);
    if TextLess(after, id) && InScope(only, id) {
      if Probed(now[id].body, fields) {
        ChunkCovers(now, fields, only, after, id);
        if id in chunk { AfterLast(now, fields, only, after, id); }
      } else {
        UnprobedIsFresh(rules, now[id].body, fields);
      }
    }
  }

  lemma CandidateFacts(t: Table, fields: seq<string>, only: Option<set<string>>, after: string, id: string)
    requires id in t
    ensures id in Candidates(t, fields, only, after)
        <==> Probed(t[id].body, fields) && InScope(only, id) && TextLess(after, id)
  {
  }

  /** Nothing in a chunk lies after its last id. */
  lemma AfterLast(t: Table, fields: seq<string>, only: Option<set<string>>, after: string, id: string)
    ensures var chunk := Chunk(t, fields, only, after); id in chunk ==> !TextLess(chunk[|chunk| - 1], id)
  {
    if id !in Chunk(t, fields, only, after) { return; }
    ByBytesTotal(Candidates(t, fields, only, after));
    var l := Listing(ByBytes(), Candidates(t, fields, only, after));
    var chunk := Chunk(t, fields, only, after);
    var last := |chunk| - 1;
    var i :| 0 <= i < |chunk| && chunk[i] == id;
    if i < last {
      SortedAt(ByBytes(), l, i, last);
      LexAsymmetric(Codes(id), Codes(chunk[last]));
    } else {
      LexIrreflexive(Codes(id));
    }
  }

  /** The empty id comes after nothing, so no chunk holds it. */
  lemma NeverEmptyId(t: Table, fields: seq<string>, only: Option<set<string>>, after: string)
    ensures "" !in Candidates(t, fields, only, after)
  {
  }

  /** One round: the rows of the chunk are done, the cursor has moved past them. */
  lemma ChunkRound(rules: TextRules, fields: seq<string>, only: Option<set<string>>, start: Table, now: Table, after: string)
    requires fields != [] && WalkedTo(rules, fields, only, start, now, after)
    ensures var chunk := Chunk(now, fields, only, after);
      var next := GuardedWrite(now, Repairs(rules, now, fields, chunk));
      if |chunk| < REKEY_CHUNK then next == Rekeyed(rules, fields, only, start)
      else WalkedTo(rules, fields, only, start, next, chunk[|chunk| - 1])
           && TextLess(after, chunk[|chunk| - 1])
           && |Candidates(start, fields, only, chunk[|chunk| - 1])| < |Candidates(start, fields, only, after)|
    ensures var next := GuardedWrite(now, Repairs(rules, now, fields, Chunk(now, fields, only, after)));
      now != start ==> next != start
  {
    hide Repairs, Rekeyed, Chunk, LexLess, Codes;
    var chunk := Chunk(now, fields, only, after);
    var next := GuardedWrite(now, Repairs(rules, now, fields, chunk));
    NeverEmptyId(now, fields, only, after);
    RekeyedKeys(rules, fields, only, start);
    forall id | id in start
      ensures if |chunk| == REKEY_CHUNK && TextLess(chunk[|chunk| - 1], id) && TextLess(after, id) then next[id] == now[id]
        else next[id] == Rekeyed(rules, fields, only, start)[id]
    {
      ChunkRow(rules, fields, only, start, now, after, id);
    }
    if |chunk| == REKEY_CHUNK {
      var last := chunk[|chunk| - 1];
      assert last in Candidates(now, fields, only, after);
      forall id | id in start && TextLess(last, id) ensures TextLess(after, id) {
        LexTransitive(Codes(after), Codes(last), Codes(id));
      }
      FewerCandidates(start, fields, only, after, last);
    }
    if now != start {
      var id :| id in start && now[id] != start[id];
      assert next[id] == Rekeyed(rules, fields, only, start)[id];
    }
  }

  // --- the machine on its own ------------------------------------------------------------------

  /** The machine after `n` of its own steps with nobody else writing; at the end it stays. */
  function Alone(rules: TextRules, fields: seq<string>, start: Table, n: nat): State {
    if n == 0 then State(start, Reading(""))
    else
      var s := Alone(rules, fields, start, n - 1);
      match s.pc
      case Reading(_) => ReadStep(rules, fields, s)
      case Writing(_, _, _) => WriteStep(s)
      case Done => s
  }

  /** Two steps for every full chunk of rows looked at, then a short chunk or an empty read. */
  function StepsFor(rows: nat): nat {
    2 * (rows / REKEY_CHUNK) + if rows % REKEY_CHUNK == 0 then 1 else 2
  }

  function Members(l: seq<string>): set<string> {
    set x | x in l
  }

  lemma {:induction false} SortedSize(lt: Order, l: seq<string>)
    requires Sorted(lt, l) && forall x | x in l :: !lt(x, x)
    ensures |Members(l)| == |l|
  {
    if l != [] {
      var init, last := l[..|l| - 1], l[|l| - 1];
      SortedSize(lt, init);
      assert Members(l) == Members(init) + {last};
      forall i | 0 <= i < |init| ensures init[i] != last {
        assert lt(l[i], l[|l| - 1]) && last in l;
      }
    }
  }

  /** Moving the cursor past a full chunk leaves exactly that many rows fewer to look at. */
  lemma FullChunk(t: Table, fields: seq<string>, after: string)
    requires |Chunk(t, fields, None, after)| == REKEY_CHUNK
    ensures var chunk := Chunk(t, fields, None, after);
      |Candidates(t, fields, None, chunk[|chunk| - 1])| == |Candidates(t, fields, None, after)| - REKEY_CHUNK
  {
    var all := Candidates(t, fields, None, after);
    ByBytesTotal(all);
    var l := Listing(ByBytes(), all);
    var chunk, later := l[..REKEY_CHUNK], l[REKEY_CHUNK..];
    var last := chunk[REKEY_CHUNK - 1];
    assert chunk == Chunk(t, fields, None, after);
    SortedSize(ByBytes(), later);
    assert last in l && last in all;
    forall id ensures id in Candidates(t, fields, None, last) <==> id in Members(later) {
      LaterRow(t, fields, after, l, id);
    }
    assert Candidates(t, fields, None, last) == Members(later);
  }

  lemma LaterRow(t: Table, fields: seq<string>, after: string, l: seq<string>, id: string)
    requires IsListing(ByBytes(), Candidates(t, fields, None, after), l) && |l| >= REKEY_CHUNK
    ensures id in Candidates(t, fields, None, l[REKEY_CHUNK - 1]) <==> id in l[REKEY_CHUNK..]
  {
    var last := l[REKEY_CHUNK - 1];
    assert last in l;
    if id in l[REKEY_CHUNK..] {
      var i :| 0 <= i < |l[REKEY_CHUNK..]| && l[REKEY_CHUNK..][i] == id;
      SortedAt(ByBytes(), l, REKEY_CHUNK - 1, REKEY_CHUNK + i);
      assert l[REKEY_CHUNK + i] in l;
    }
    if id in Candidates(t, fields, None, last) {
      LexTransitive(Codes(after), Codes(last), Codes(id));
      assert id in l;
      var i :| 0 <= i < |l| && l[i] == id;
      if i < REKEY_CHUNK - 1 {
        SortedAt(ByBytes(), l, i, REKEY_CHUNK - 1);
        LexAsymmetric(Codes(id), Codes(last));
      } else if i == REKEY_CHUNK - 1 {
        LexIrreflexive(Codes(last));
      } else {
        assert l[REKEY_CHUNK..][i - REKEY_CHUNK] == id;
      }
    }
  }

  /** After `k` full chunks: the rows up to the cursor are done, and that many fewer are to be looked at. */
  ghost predicate RoundsDone(rules: TextRules, fields: seq<string>, start: Table, k: nat) {
    var s := Alone(rules, fields, start, 2 * k);
    && s.pc.Reading? && WalkedTo(rules, fields, None, start, s.table, s.pc.after)
    && |Candidates(start, fields, None, s.pc.after)| == |Candidates(start, fields, None, "")| - k * REKEY_CHUNK
  }

  /** The rows still to be looked at are those of the table the walk started from. */
  lemma SameAhead(rules: TextRules, fields: seq<string>, start: Table, now: Table, after: string, cursor: string)
    requires WalkedTo(rules, fields, None, start, now, after) && (cursor == after || TextLess(after, cursor))
    ensures Candidates(now, fields, None, cursor) == Candidates(start, fields, None, cursor)
  {
    hide Probed, LexLess, Codes, Rekeyed;
    forall id | id in start && TextLess(cursor, id) ensures TextLess(after, id) {
      if cursor != after { LexTransitive(Codes(after), Codes(cursor), Codes(id)); }
    }
  }

  lemma {:induction false} AloneAt(rules: TextRules, fields: seq<string>, start: Table, k: nat)
    requires fields != [] && k <= |Candidates(start, fields, None, "")| / REKEY_CHUNK
    ensures RoundsDone(rules, fields, start, k)
  {
    hide WalkedTo, Candidates, Chunk, Repairs, GuardedWrite, TextLess;
    if k == 0 {
      FirstRow(rules, fields, None, start);
    } else {
      AloneAt(rules, fields, start, k - 1);
      var s := Alone(rules, fields, start, 2 * (k - 1));
      var chunk := NextChunk(rules, fields, start, s);
      ChunkRound(rules, fields, None, start, s.table, s.pc.after);
      assert |chunk| == REKEY_CHUNK;
      FullChunk(s.table, fields, s.pc.after);
      var last := chunk[|chunk| - 1];
      SameAhead(rules, fields, start, s.table, s.pc.after, last);
      assert Alone(rules, fields, start, 2 * k - 1) == ReadStep(rules, fields, s);
      assert Alone(rules, fields, start, 2 * k) == WriteStep(ReadStep(rules, fields, s));
    }
  }

  /** The next chunk is full unless fewer rows are left. */
  lemma NextChunk(rules: TextRules, fields: seq<string>, start: Table, s: State) returns (chunk: seq<string>)
    requires s.pc.Reading? && WalkedTo(rules, fields, None, start, s.table, s.pc.after)
    ensures chunk == Chunk(s.table, fields, None, s.pc.after)
    ensures Candidates(s.table, fields, None, s.pc.after) == Candidates(start, fields, None, s.pc.after)
    ensures |chunk| == if |Candidates(start, fields, None, s.pc.after)| < REKEY_CHUNK
                       then |Candidates(start, fields, None, s.pc.after)| else REKEY_CHUNK
  {
    chunk := Chunk(s.table, fields, None, s.pc.after);
    hide Candidates;
    SameAhead(rules, fields, start, s.table, s.pc.after, s.pc.after);
    ByBytesTotal(Candidates(s.table, fields, None, s.pc.after));
  }

  /**
   * With nobody else writing the walk ends after exactly that many steps, in the table that `Rekeyed`
   * names; before that it has not ended, and it stays there.
   */
  lemma AloneEnds(rules: TextRules, fields: seq<string>, start: Table, n: nat)
    requires fields != []
    ensures var steps := StepsFor(|Candidates(start, fields, None, "")|);
      && (n >= steps ==> Alone(rules, fields, start, n) == State(Rekeyed(rules, fields, None, start), Done))
      && (n < steps ==> !Alone(rules, fields, start, n).pc.Done?)
  {
    hide RoundsDone, Candidates, Chunk, Repairs, GuardedWrite, Rekeyed, WalkedTo;
    var rows := |Candidates(start, fields, None, "")|;
    var steps := StepsFor(rows);
    if n < steps {
      AloneAt(rules, fields, start, n / 2);
      ReadingAt(rules, fields, start, n / 2);
      if n % 2 == 1 {
        OddStep(rules, fields, start, n / 2);
      }
    } else if n == steps {
      LastRound(rules, fields, start);
    } else {
      AloneEnds(rules, fields, start, n - 1);
    }
  }

  lemma ReadingAt(rules: TextRules, fields: seq<string>, start: Table, k: nat)
    ensures RoundsDone(rules, fields, start, k) ==> Alone(rules, fields, start, 2 * k).pc.Reading?
  {
    hide Alone, WalkedTo, Candidates;
  }

  /** As long as rows are left, a read is followed by a write. */
  lemma OddStep(rules: TextRules, fields: seq<string>, start: Table, k: nat)
    requires RoundsDone(rules, fields, start, k) && k * REKEY_CHUNK < |Candidates(start, fields, None, "")|
    ensures Alone(rules, fields, start, 2 * k + 1).pc.Writing?
    ensures Alone(rules, fields, start, 2 * k + 1) == ReadStep(rules, fields, Alone(rules, fields, start, 2 * k))
  {
    hide WalkedTo, Candidates, Chunk, Repairs, GuardedWrite;
    var s := Alone(rules, fields, start, 2 * k);
    var chunk := NextChunk(rules, fields, start, s);
  }

  lemma AloneNext(rules: TextRules, fields: seq<string>, start: Table, n: nat)
    ensures var s := Alone(rules, fields, start, n);
      Alone(rules, fields, start, n + 1) ==
        if s.pc.Reading? then ReadStep(rules, fields, s) else if s.pc.Writing? then WriteStep(s) else s
  {
  }

  lemma LastRound(rules: TextRules, fields: seq<string>, start: Table)
    requires fields != []
    ensures Alone(rules, fields, start, StepsFor(|Candidates(start, fields, None, "")|)) == State(Rekeyed(rules, fields, None, start), Done)
  {
    hide WalkedTo, Candidates, Chunk, Repairs, Rekeyed, Alone, GuardedWrite;
    var rows := |Candidates(start, fields, None, "")|;
    var k := rows / REKEY_CHUNK;
    AloneAt(rules, fields, start, k);
    var s := Alone(rules, fields, start, 2 * k);
    var chunk := NextChunk(rules, fields, start, s);
    ChunkRound(rules, fields, None, start, s.table, s.pc.after);
    NoRepairs(rules, s.table, fields);
    AloneNext(rules, fields, start, 2 * k);
    AloneNext(rules, fields, start, 2 * k + 1);
    assert rows % REKEY_CHUNK == 0 ==> chunk == [];
  }

  lemma NoRepairs(rules: TextRules, t: Table, fields: seq<string>)
    ensures GuardedWrite(t, Repairs(rules, t, fields, [])) == t
  {
  }

  /** The machine on its own is one of its runs, so everything said about runs holds of it. */
  lemma AloneRuns(rules: TextRules, fields: seq<string>, start: Table, n: nat)
    requires fields != [] && "" !in start && n <= StepsFor(|Candidates(start, fields, None, "")|)
    ensures Run(rules, fields, seq(n + 1, i requires 0 <= i <= n => Alone(rules, fields, start, i)))
  {
    hide ReadStep, WriteStep, WriterStep, Candidates;
    var trace := seq(n + 1, i requires 0 <= i <= n => Alone(rules, fields, start, i));
    forall i | 0 <= i < |trace| - 1 ensures Step(rules, fields, trace[i], trace[i + 1]) {
      AloneEnds(rules, fields, start, i);
    }
  }

  lemma RekeyedKeys(rules: TextRules, fields: seq<string>, only: Option<set<string>>, t: Table)
    ensures Rekeyed(rules, fields, only, t).Keys == t.Keys
  {
  }

  lemma FewerCandidates(t: Table, fields: seq<string>, only: Option<set<string>>, after: string, last: string)
    requires last in Candidates(t, fields, only, after)
    ensures |Candidates(t, fields, only, last)| < |Candidates(t, fields, only, after)|
  {
    var big, small := Candidates(t, fields, only, after), Candidates(t, fields, only, last);
    LexIrreflexive(Codes(last));
    forall id | id in small ensures id in big {
      LexTransitive(Codes(after), Codes(last), Codes(id));
    }
    assert small <= big - {last};
    Subset(small, big - {last});
  }

  lemma {:induction false} Subset(a: set<string>, b: set<string>)
    requires a <= b
    ensures |a| <= |b|
  {
    if x :| x in a {
      Subset(a - {x}, b - {x});
    }
  }

  /** Repairing is not idle: a chunk with a stale row changes the table. */
  lemma RepairsChange(rules: TextRules, fields: seq<string>, t: Table, chunk: seq<string>)
    requires SORT_KEYS !in fields
    ensures var repairs := Repairs(rules, t, fields, chunk);
      GuardedWrite(t, repairs) == t <==> repairs == map[]
  {
    hide FreshBody;
    var repairs := Repairs(rules, t, fields, chunk);
    if id :| id in repairs {
      RekeyedRowMeaning(rules, fields, t[id]);
      assert GuardedWrite(t, repairs)[id] == RekeyedRow(rules, fields, t[id]);
    }
  }

  /** A table as the login sees it while no cube is running. */
  class StoredTable {
    var rows: Table

    constructor (rows: Table)
      ensures this.rows == rows
    {
      this.rows := rows;
    }

    /** `writes` counts the UPDATE statements sent: none exactly when no key in scope was stale. */
    method Rekey(rules: TextRules, fields: seq<string>, only: Option<set<string>>) returns (writes: nat)
      requires SORT_KEYS !in fields
      modifies this
      ensures rows == Rekeyed(rules, fields, only, old(rows))
      ensures writes == 0 <==> rows == old(rows)
    {
      hide RekeyedRow, Chunk, Repairs, GuardedWrite, Candidates;
      writes := 0;
      if fields == [] || only == Some({}) {
        assert rows == Rekeyed(rules, fields, only, rows);
        return;
      }
      ghost var start := rows;
      var after := "";
      FirstRow(rules, fields, only, start);
      while true
        invariant WalkedTo(rules, fields, only, start, rows, after)
        invariant writes == 0 <==> rows == start
        decreases |Candidates(start, fields, only, after)|
      {
        ghost var before := rows;
        var chunk := Chunk(rows, fields, only, after);
        var repairs := Repairs(rules, rows, fields, chunk);
        ChunkRound(rules, fields, only, start, rows, after);
        RepairsChange(rules, fields, rows, chunk);
        if |repairs| > 0 {
          rows := GuardedWrite(rows, repairs);
          writes := writes + 1;
        }
        assert rows == GuardedWrite(before, repairs);
        if |chunk| < REKEY_CHUNK {
          return;
        }
        after := chunk[|chunk| - 1];
      }
    }
  }

  lemma FirstRow(rules: TextRules, fields: seq<string>, only: Option<set<string>>, start: Table)
    ensures WalkedTo(rules, fields, only, start, start, "")
  {
    forall id | id in start && !TextLess("", id) ensures id == "" {
      assert Codes(id) == [];
    }
  }
}
