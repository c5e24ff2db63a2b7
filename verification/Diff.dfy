/**
 * The change record of an activity row, and its partner: replaying the records in order. An update
 * records the keys whose values differ; replaying that over the old body gives the new one.
 */
module Diff {
  import opened Wrappers
  import opened JsonValues
  import opened CustomValues

  datatype Change = Change(from: Option<Json>, to: Option<Json>)
  type Changes = map<string, Change>

  const CUSTOM_DOT := "custom."

  /** A record key that names a value inside `custom`. */
  predicate Dotted(key: string) {
    |key| >= |CUSTOM_DOT| && key[..|CUSTOM_DOT|] == CUSTOM_DOT
  }

  function SubKey(name: string): (key: string)
    ensures Dotted(key) && key[|CUSTOM_DOT|..] == name
  {
    CUSTOM_DOT + name
  }

  predicate NoDotted(body: Body) {
    forall k | k in body :: !Dotted(k)
  }

  function OrEmpty(before: Option<Body>): Body {
    before.GetOr(map[])
  }

  /** Equal objects and arrays may still differ as JSON text, in the order of their keys. */
  predicate Respellable(v: Option<Json>) {
    v.Some? && (v.value.Obj? || v.value.Arr?)
  }

  /** Values compared as JSON text: different ones always differ, equal ones only by another spelling. */
  predicate Recordable(c: Change) {
    c.from != c.to || Respellable(c.from)
  }

  predicate PlainEntry(before: Body, after: Body, key: string, c: Change) {
    key != CUSTOM && c == Change(Get(before, key), Get(after, key)) && Recordable(c)
  }

  /** An entry about one name inside two `custom` objects. */
  predicate CustomEntry(before: Body, after: Body, key: string, c: Change) {
    Dotted(key) && c == Change(Get(before, key[|CUSTOM_DOT|..]), Get(after, key[|CUSTOM_DOT|..])) && Recordable(c)
  }

  /** Every name whose values differ has an entry, and every entry is right. */
  ghost predicate IsSubDiff(before: Body, after: Body, out: Changes) {
    && (forall k | k in out :: CustomEntry(before, after, k, out[k]))
    && (forall n | Get(before, n) != Get(after, n) :: SubKey(n) in out)
  }

  predicate BothCustom(before: Option<Body>, after: Body) {
    CUSTOM in OrEmpty(before) && OrEmpty(before)[CUSTOM].Obj? && CUSTOM in after && after[CUSTOM].Obj?
  }

  predicate Entry(before: Option<Body>, after: Body, key: string, c: Change) {
    || PlainEntry(OrEmpty(before), after, key, c)
    || (BothCustom(before, after) && CustomEntry(OrEmpty(before)[CUSTOM].fields, after[CUSTOM].fields, key, c))
  }

  ghost predicate CustomRecorded(before: Option<Body>, after: Body, out: Changes) {
    BothCustom(before, after) ==>
      forall n | Get(OrEmpty(before)[CUSTOM].fields, n) != Get(after[CUSTOM].fields, n) :: SubKey(n) in out
  }

  /**
   * A change record: an entry for every key whose values differ, per name inside two `custom` objects, and
   * no entry that is not right. A body key that is itself spelled `custom.<name>` may share its entry with
   * a custom value; whichever was written last stays.
   */
  ghost predicate IsDiff(before: Option<Body>, after: Body, out: Changes) {
    && (forall k | k in out :: Entry(before, after, k, out[k]))
    && (forall k | k != CUSTOM && Get(OrEmpty(before), k) != Get(after, k) :: k in out)
    && CustomRecorded(before, after, out)
  }

  /** The records of two `custom` objects while some names are still to come. */
  ghost predicate SubSoFar(before: Body, after: Body, out: Changes, pending: set<string>) {
    && (forall k | k in out :: CustomEntry(before, after, k, out[k]))
    && (forall n | Get(before, n) != Get(after, n) && n !in pending :: SubKey(n) in out)
  }

  lemma SubBounds(before: Body, after: Body, out: Changes)
    ensures SubSoFar(before, after, map[], before.Keys + after.Keys)
    ensures SubSoFar(before, after, out, {}) ==> IsSubDiff(before, after, out)
  {
  }

  lemma SubNext(before: Body, after: Body, out: Changes, pending: set<string>, name: string)
    requires SubSoFar(before, after, out, pending)
    ensures Get(before, name) == Get(after, name) ==> SubSoFar(before, after, out, pending - {name})
    ensures var c := Change(Get(before, name), Get(after, name));
      Recordable(c) ==> SubSoFar(before, after, out[SubKey(name) := c], pending - {name})
  {
    hide SubKey, Recordable;
  }

  /** The records of two `custom` objects, name by name; `respelled` says where equal values have other text. */
  method DiffCustom(before: Body, after: Body, respelled: string -> bool) returns (out: Changes)
    ensures IsSubDiff(before, after, out)
  {
    hide SubKey, SubSoFar, IsSubDiff;
    out := map[];
    var pending := before.Keys + after.Keys;
    SubBounds(before, after, out);
    while pending != {}
      invariant SubSoFar(before, after, out, pending)
      decreases |pending|
    {
      var name :| name in pending;
      var from, to := Get(before, name), Get(after, name);
      SubNext(before, after, out, pending, name);
      if from != to || (Respellable(from) && respelled(SubKey(name))) {
        out := out[SubKey(name) := Change(from, to)];
      }
      pending := pending - {name};
    }
    SubBounds(before, after, out);
  }

  /** The record of a write while some keys are still to come. */
  ghost predicate SoFar(before: Option<Body>, after: Body, out: Changes, pending: set<string>) {
    && (forall k | k in out :: Entry(before, after, k, out[k]))
    && (forall k | k != CUSTOM && Get(OrEmpty(before), k) != Get(after, k) && k !in pending :: k in out)
    && (CUSTOM in pending || CustomRecorded(before, after, out))
  }

  lemma Bounds(before: Option<Body>, after: Body, out: Changes)
    ensures SoFar(before, after, map[], OrEmpty(before).Keys + after.Keys)
    ensures SoFar(before, after, out, {}) ==> IsDiff(before, after, out)
  {
  }

  lemma PlainNext(before: Option<Body>, after: Body, out: Changes, pending: set<string>, key: string)
    requires SoFar(before, after, out, pending) && key != CUSTOM
    ensures var from, to := Get(OrEmpty(before), key), Get(after, key);
      && (from == to ==> SoFar(before, after, out, pending - {key}))
      && (Recordable(Change(from, to)) ==> SoFar(before, after, out[key := Change(from, to)], pending - {key}))
  {
    hide CustomEntry, Recordable, SubKey;
  }

  lemma CustomNext(before: Option<Body>, after: Body, out: Changes, pending: set<string>, sub: Changes)
    requires SoFar(before, after, out, pending)
    requires if BothCustom(before, after) then IsSubDiff(OrEmpty(before)[CUSTOM].fields, after[CUSTOM].fields, sub) else sub == map[]
    ensures SoFar(before, after, out + sub, pending - {CUSTOM})
  {
    hide PlainEntry, CustomEntry, SubKey;
  }

  /** The record of one write, filled key by key. */
  method DiffBody(before: Option<Body>, after: Body, respelled: string -> bool) returns (out: Changes)
    ensures IsDiff(before, after, out)
  {
    hide SoFar, IsDiff, IsSubDiff;
    out := map[];
    var b := OrEmpty(before);
    var pending := b.Keys + after.Keys;
    Bounds(before, after, out);
    while pending != {}
      invariant SoFar(before, after, out, pending)
      decreases |pending|
    {
      var key :| key in pending;
      if key == CUSTOM {
        // Only object against object records names; anything else is not republished.
        var sub := map[];
        if BothCustom(before, after) {
          sub := DiffCustom(b[CUSTOM].fields, after[CUSTOM].fields, respelled);
        }
        CustomNext(before, after, out, pending, sub);
        out := out + sub;
      } else {
        var from, to := Get(b, key), Get(after, key);
        PlainNext(before, after, out, pending, key);
        if from != to || (Respellable(from) && respelled(key)) {
          out := out[key := Change(from, to)];
        }
      }
      pending := pending - {key};
    }
    Bounds(before, after, out);
  }

  // --- replay ----------------------------------------------------------------------------------

  function Replayed(body: Body, changes: Changes, key: string): Option<Json> {
    if key in changes && !Dotted(key) then changes[key].to else Get(body, key)
  }

  /** One record applied to a body: each plain key takes the value it changed to. */
  function Apply(body: Body, changes: Changes): (body': Body)
    ensures forall k :: Get(body', k) == Replayed(body, changes, k)
  {
    map k | k in body.Keys + changes.Keys && Replayed(body, changes, k).Some? :: Replayed(body, changes, k).value
  }

  /** The part of a body that activity rebuilds. */
  function Plain(body: Body): Body {
    Without(body, CUSTOM)
  }

  lemma SameBody(a: Body, b: Body)
    requires forall k :: Get(a, k) == Get(b, k)
    ensures a == b
  {
    forall k ensures k in a <==> k in b {
      assert Get(a, k) == Get(b, k);
    }
    forall k | k in a ensures a[k] == b[k] {
      assert Get(a, k) == Get(b, k);
    }
  }

  /** A key that is not dotted is recorded under its own values, or has not changed. */
  lemma PlainKey(before: Option<Body>, after: Body, out: Changes, key: string)
    requires IsDiff(before, after, out) && key != CUSTOM && !Dotted(key)
    ensures if key in out then out[key] == Change(Get(OrEmpty(before), key), Get(after, key))
      else Get(OrEmpty(before), key) == Get(after, key)
  {
    if key in out { assert Entry(before, after, key, out[key]); }
  }

  /** A record replayed over the old body is the new body, outside `custom`. */
  lemma DiffReplays(before: Option<Body>, after: Body, out: Changes, replayed: Body)
    requires IsDiff(before, after, out)
    requires NoDotted(OrEmpty(before)) && NoDotted(after)
    requires Plain(replayed) == Plain(OrEmpty(before))
    ensures Plain(Apply(replayed, out)) == Plain(after)
  {
    hide IsDiff;
    var b := OrEmpty(before);
    forall k ensures Get(Plain(Apply(replayed, out)), k) == Get(Plain(after), k) {
      if k != CUSTOM {
        assert Get(Plain(replayed), k) == Get(Plain(b), k);
        if Dotted(k) { assert k !in b && k !in after && Get(replayed, k) == None; } else { PlainKey(before, after, out, k); }
      }
    }
    SameBody(Plain(Apply(replayed, out)), Plain(after));
  }

  /** A record read backwards: each value it changed to becomes the value it changed from. */
  function Undone(changes: Changes): Changes {
    map k | k in changes :: Change(changes[k].to, changes[k].from)
  }

  /** A record undone over the new body is the old body, outside `custom`. */
  lemma DiffUndoes(before: Option<Body>, after: Body, out: Changes)
    requires IsDiff(before, after, out)
    requires NoDotted(OrEmpty(before)) && NoDotted(after)
    ensures Plain(Apply(after, Undone(out))) == Plain(OrEmpty(before))
  {
    hide IsDiff;
    var b := OrEmpty(before);
    forall k ensures Get(Plain(Apply(after, Undone(out))), k) == Get(Plain(b), k) {
      if k != CUSTOM {
        if Dotted(k) { assert k !in b && k !in after; } else { PlainKey(before, after, out, k); }
      }
    }
    SameBody(Plain(Apply(after, Undone(out))), Plain(b));
  }

  /** Between two `custom` objects, the record gives both values of every name that changed. */
  lemma CustomReplays(before: Body, after: Body, out: Changes, name: string)
    requires IsDiff(Some(before), after, out) && NoDotted(before) && NoDotted(after)
    requires CUSTOM in before && before[CUSTOM].Obj? && CUSTOM in after && after[CUSTOM].Obj?
    ensures var b, a := Get(before[CUSTOM].fields, name), Get(after[CUSTOM].fields, name);
      if SubKey(name) in out then out[SubKey(name)] == Change(b, a) && (b != a || Respellable(b)) else a == b
  {
    var key := SubKey(name);
    if key in out {
      assert Entry(Some(before), after, key, out[key]);
      assert key !in before && key !in after;
    }
  }

  /** An empty record replays to the new body exactly when nothing outside `custom` was edited. */
  lemma EmptyReplays(before: Body, after: Body, replayed: Body)
    requires Plain(replayed) == Plain(before)
    ensures Plain(Apply(replayed, map[])) == Plain(after) <==> Plain(after) == Plain(before)
  {
    SameBody(Apply(replayed, map[]), replayed);
  }
}
