/**
 * The custom-field value policy: undeclared payload keys are folded into the reserved `custom`
 * object when a definition accepts them, and the request is refused otherwise.
 */
module CustomValues {
  import opened Wrappers
  import opened JsonValues

  const CUSTOM := "custom"
  const MAX_CUSTOM_KEYS := 32
  const MAX_CUSTOM_BYTES := 8192
  const MAX_TEXT := 1000
  const UNSAFE_KEYS := {"__proto__", "constructor", "prototype"}

  datatype FieldType = TextField | NumberField | DateField | BoolField | SelectField

  datatype FieldDef = FieldDef(name: string, fieldType: FieldType, required: bool, options: seq<string>)

  /** JSON text, number coercion and date parsing are the platform's. */
  datatype ValueRules = ValueRules(json: Json -> string, finiteNumber: Json -> bool, parsesAsDate: string -> bool)

  datatype FoldError =
    | NotAnObject
    | UnsafeKey(name: string)
    | Undefined(name: string)
    | BadValue(name: string)
    | Required(name: string)
    | OverCap

  // --- caps ------------------------------------------------------------------------------------

  /** Both caps on one custom object. */
  predicate WithinCaps(json: Json -> string, custom: Body) {
    |custom| <= MAX_CUSTOM_KEYS && |json(Obj(custom))| <= MAX_CUSTOM_BYTES
  }

  // --- one value against one definition --------------------------------------------------------

  function TextOfValue(rules: ValueRules, v: Json): string {
    if v.Str? then v.s else rules.json(v)
  }

  predicate Digit(c: char) { '0' <= c <= '9' }

  predicate DateShape(s: string) {
    |s| == 10 && s[4] == '-' && s[7] == '-' && forall i | 0 <= i < 10 && i != 4 && i != 7 :: Digit(s[i])
  }

  predicate Empty(v: Json) {
    v == Null || v == Str("")
  }

  /** A definition accepts a value: an empty one unless required, else one of its type. */
  predicate Accepts(rules: ValueRules, def: FieldDef, v: Json) {
    if Empty(v) then !def.required
    else
      var text := TextOfValue(rules, v);
      match def.fieldType
      case TextField => v.Str? && |v.s| <= MAX_TEXT
      case NumberField => rules.finiteNumber(v)
      case DateField => DateShape(text) && rules.parsesAsDate(text)
      case BoolField => v.Bool? || v == Str("true") || v == Str("false")
      case SelectField => text in def.options
  }

  /** A definition that no later one of its name replaces. */
  predicate InForce(defs: seq<FieldDef>, def: FieldDef) {
    exists i :: 0 <= i < |defs| && defs[i] == def && forall j | i < j < |defs| :: defs[j].name != def.name
  }

  /** The last definition of a name wins, as in a JavaScript Map. */
  function DefOf(defs: seq<FieldDef>, name: string): (def: Option<FieldDef>)
    ensures def.Some? ==> InForce(defs, def.value) && def.value.name == name
    ensures def.None? ==> forall d | d in defs :: d.name != name
  {
    if defs == [] then None
    else
      var last := defs[|defs| - 1];
      if last.name == name then Some(last) else DefOf(defs[..|defs| - 1], name)
  }

  function Refusal(rules: ValueRules, defs: seq<FieldDef>, name: string, v: Json): Option<FoldError> {
    if name in UNSAFE_KEYS then Some(UnsafeKey(name))
    else
      match DefOf(defs, name)
      case None => Some(Undefined(name))
      case Some(def) => if Accepts(rules, def, v) then None else Some(BadValue(name))
  }

  // --- what a definition accepts, by type --------------------------------------------------------

  predicate DigitCode(n: int) { 48 <= n <= 57 }

  /** Four digits, two and two, with dashes between. */
  predicate DateShaped(s: string) {
    && |s| == 10 && s[4] == '-' && s[7] == '-'
    && (forall i | 0 <= i < 4 :: DigitCode(s[i] as int)) && (forall i | 5 <= i < 7 :: DigitCode(s[i] as int))
    && (forall i | 8 <= i < 10 :: DigitCode(s[i] as int))
  }

  /** A value's text: a string is its own, anything else has its JSON text. */
  predicate Reads(rules: ValueRules, v: Json, text: string) {
    if v.Str? then v == Str(text) else rules.json(v) == text
  }

  /** Null and the empty string are no value: refused only where one is required. Any other has to be of the type. */
  ghost predicate Fits(rules: ValueRules, def: FieldDef, v: Json) {
    if v in {Null, Str("")} then !def.required
    else
      match def.fieldType
      case TextField => exists s :: v == Str(s) && |s| <= 1000
      case NumberField => rules.finiteNumber(v)
      case DateField => exists s :: Reads(rules, v, s) && DateShaped(s) && rules.parsesAsDate(s)
      case BoolField => v in {Bool(true), Bool(false), Str("true"), Str("false")}
      case SelectField => exists s :: Reads(rules, v, s) && s in def.options
  }

  lemma AcceptsExactly(rules: ValueRules, def: FieldDef, v: Json)
    ensures Accepts(rules, def, v) <==> Fits(rules, def, v)
  {
    var text := TextOfValue(rules, v);
    assert forall s | Reads(rules, v, s) :: s == text;
    assert Reads(rules, v, text);
    assert DateShape(text) <==> DateShaped(text) by { DateByShape(text); }
    hide DateShape, DateShaped;
    match def.fieldType
    case TextField => if v.Str? { assert v == Str(v.s); }
    case _ =>
  }

  lemma DateByShape(s: string)
    ensures DateShape(s) <==> DateShaped(s)
  {
    if DateShaped(s) {
      forall i | 0 <= i < 10 && i != 4 && i != 7 ensures Digit(s[i]) {
        assert i < 4 || 5 <= i < 7 || 8 <= i < 10;
      }
    }
  }

  const PROTOTYPES := {"__proto__", "constructor", "prototype"}

  /** A custom value under a name: the name is no part of JavaScript's object machinery and its definition takes the value. */
  ghost predicate Given(rules: ValueRules, defs: seq<FieldDef>, name: string, v: Json) {
    name !in PROTOTYPES && exists def :: InForce(defs, def) && def.name == name && Fits(rules, def, v)
  }

  lemma OneInForce(defs: seq<FieldDef>, a: FieldDef, b: FieldDef)
    requires InForce(defs, a) && InForce(defs, b) && a.name == b.name
    ensures a == b
  {
    var i :| 0 <= i < |defs| && defs[i] == a && forall j | i < j < |defs| :: defs[j].name != a.name;
    var k :| 0 <= k < |defs| && defs[k] == b && forall j | k < j < |defs| :: defs[j].name != b.name;
    assert i == k;
  }

  /** A value is refused exactly when it is not given under an active definition; the reason says which half failed. */
  lemma RefusalExactly(rules: ValueRules, defs: seq<FieldDef>, name: string, v: Json)
    ensures Refusal(rules, defs, name, v) == None <==> Given(rules, defs, name, v)
    ensures Refusal(rules, defs, name, v) == Some(UnsafeKey(name)) <==> name in PROTOTYPES
    ensures Refusal(rules, defs, name, v) == Some(Undefined(name)) <==> name !in PROTOTYPES && forall d | d in defs :: d.name != name
  {
    hide Accepts, Fits, InForce;
    var found := DefOf(defs, name);
    forall d | InForce(defs, d) ensures d in defs { ForceIsListed(defs, d); }
    if found.Some? {
      AcceptsExactly(rules, found.value, v);
      forall d | InForce(defs, d) && d.name == name ensures d == found.value { OneInForce(defs, d, found.value); }
    }
  }

  lemma ForceIsListed(defs: seq<FieldDef>, d: FieldDef)
    requires InForce(defs, d)
    ensures d in defs
  {
  }

  // --- the fold --------------------------------------------------------------------------------

  datatype Mode = Create | Patch

  function Declared(payload: Body, declared: set<string>): Body {
    map k | k in payload && k in declared :: payload[k]
  }

  /** The payload's keys that are neither declared nor `custom`. */
  function Undeclared(payload: Body, declared: set<string>): Body {
    map k | k in payload && k !in declared && k != CUSTOM :: payload[k]
  }

  /** The custom object the caller sent; with no definitions it is stripped. */
  function Explicit(payload: Body, defs: seq<FieldDef>): Body {
    if defs != [] && CUSTOM in payload && payload[CUSTOM].Obj? then payload[CUSTOM].fields else map[]
  }

  function Moved(payload: Body, declared: set<string>, defs: seq<FieldDef>): Body {
    if defs == [] then map[] else Undeclared(payload, declared)
  }

  /** What would be stored under `custom`: an undeclared key overrides the same name sent explicitly. */
  function Collected(payload: Body, declared: set<string>, defs: seq<FieldDef>): Body {
    Explicit(payload, defs) + Moved(payload, declared, defs)
  }

  predicate AllAccepted(rules: ValueRules, defs: seq<FieldDef>, values: Body) {
    forall name | name in values :: Refusal(rules, defs, name, values[name]) == None
  }

  predicate RequiredGiven(defs: seq<FieldDef>, custom: Body) {
    forall d | d in defs && d.required :: d.name in custom && !Empty(custom[d.name])
  }

  /** When the fold of a cube without a `custom` field of its own accepts a payload. */
  predicate Foldable(rules: ValueRules, payload: Body, declared: set<string>, defs: seq<FieldDef>, mode: Mode) {
    var custom := Collected(payload, declared, defs);
    && (CUSTOM in payload ==> payload[CUSTOM].Obj?)
    && Undeclared(payload, declared).Keys !! UNSAFE_KEYS
    && AllAccepted(rules, defs, Explicit(payload, defs))
    && AllAccepted(rules, defs, Moved(payload, declared, defs))
    && (mode == Create ==> RequiredGiven(defs, custom))
    && (custom != map[] ==> WithinCaps(rules.json, custom))
  }

  function Folded(payload: Body, declared: set<string>, defs: seq<FieldDef>): Body {
    var custom := Collected(payload, declared, defs);
    var kept := Declared(payload, declared);
    if custom == map[] then kept else kept[CUSTOM := Obj(custom)]
  }

  /** The reasons that apply to a payload: a refusal always carries one of them. */
  ghost predicate Applies(rules: ValueRules, payload: Body, declared: set<string>, defs: seq<FieldDef>, mode: Mode, e: FoldError) {
    match e
    case NotAnObject => CUSTOM in payload && !payload[CUSTOM].Obj?
    case Required(name) => mode == Create && LacksRequired(defs, Collected(payload, declared, defs), name)
    case OverCap => !WithinCaps(rules.json, Collected(payload, declared, defs))
    case _ =>
      || Refused(rules, defs, Explicit(payload, defs), e)
      || Refused(rules, defs, Moved(payload, declared, defs), e)
      || (e.UnsafeKey? && e.name in Undeclared(payload, declared) && e.name in UNSAFE_KEYS)
  }

  ghost predicate Refused(rules: ValueRules, defs: seq<FieldDef>, values: Body, e: FoldError) {
    exists name :: name in values && Refusal(rules, defs, name, values[name]) == Some(e)
  }

  predicate LacksRequired(defs: seq<FieldDef>, custom: Body, name: string) {
    (exists d :: d in defs && d.required && d.name == name) && (name in custom ==> Empty(custom[name]))
  }

  lemma AppliesMeansUnfoldable(rules: ValueRules, payload: Body, declared: set<string>, defs: seq<FieldDef>, mode: Mode, e: FoldError)
    requires Applies(rules, payload, declared, defs, mode, e)
    ensures !Foldable(rules, payload, declared, defs, mode) || (e == OverCap && Collected(payload, declared, defs) == map[])
  {
  }

  /** The checks of the request's own `custom` object, value by value. */
  method CheckExplicit(rules: ValueRules, payload: Body, declared: set<string>, defs: seq<FieldDef>, mode: Mode)
    returns (r: Result<Body, FoldError>)
    ensures r.Ok? ==> r.value == Explicit(payload, defs) && AllAccepted(rules, defs, r.value)
                      && (CUSTOM in payload ==> payload[CUSTOM].Obj?)
    ensures r.Err? ==> Applies(rules, payload, declared, defs, mode, r.error) && r.error != OverCap
  {
    var custom: Body := map[];
    if CUSTOM in payload {
      if !payload[CUSTOM].Obj? {
        return Err(NotAnObject);
      }
      var given := payload[CUSTOM].fields;
      var pending := given.Keys;
      while pending != {} && defs != []
        invariant pending <= given.Keys
        invariant defs != [] ==> custom == map k | k in given && k !in pending :: given[k]
        invariant defs == [] ==> custom == map[]
        invariant AllAccepted(rules, defs, custom)
        decreases |pending|
      {
        var name :| name in pending;
        var why := Refusal(rules, defs, name, given[name]);
        if why.Some? {
          assert Explicit(payload, defs)[name] == given[name];
          return Err(why.value);
        }
        custom := custom[name := given[name]];
        pending := pending - {name};
      }
      assert defs != [] ==> custom == given;
    }
    r := Ok(custom);
  }

  /** One undeclared key: never an unsafe name, and with definitions active only an accepted value. */
  method CheckUndeclared(rules: ValueRules, defs: seq<FieldDef>, key: string, value: Json) returns (why: Option<FoldError>)
    ensures why.None? ==> key !in UNSAFE_KEYS && (defs != [] ==> Refusal(rules, defs, key, value) == None)
    ensures why.Some? ==>
      if key in UNSAFE_KEYS then why.value == UnsafeKey(key) else defs != [] && Refusal(rules, defs, key, value) == why
  {
    if key in UNSAFE_KEYS {
      return Some(UnsafeKey(key));
    }
    why := if defs == [] then None else Refusal(rules, defs, key, value);
  }

  function Part(payload: Body, keys: set<string>): Body {
    map k | k in payload && k in keys :: payload[k]
  }

  lemma PartStep(payload: Body, keys: set<string>, key: string)
    ensures Part(payload, keys + {key}) == if key in payload then Part(payload, keys)[key := payload[key]] else Part(payload, keys)
  {
  }

  lemma RefusedKey(rules: ValueRules, payload: Body, declared: set<string>, defs: seq<FieldDef>, mode: Mode, key: string, e: FoldError)
    requires key in Undeclared(payload, declared)
    requires if key in UNSAFE_KEYS then e == UnsafeKey(key) else defs != [] && Refusal(rules, defs, key, payload[key]) == Some(e)
    ensures Applies(rules, payload, declared, defs, mode, e) && e != OverCap
  {
    if key !in UNSAFE_KEYS {
      assert Moved(payload, declared, defs)[key] == payload[key];
    }
  }

  lemma AcceptMore(rules: ValueRules, defs: seq<FieldDef>, values: Body, key: string, v: Json)
    requires AllAccepted(rules, defs, values) && Refusal(rules, defs, key, v) == None
    ensures AllAccepted(rules, defs, values[key := v])
  {
    hide Refusal;
  }

  /** The payload's keys sorted into kept and undeclared ones, each undeclared one checked. */
  method MoveUndeclared(rules: ValueRules, payload: Body, declared: set<string>, defs: seq<FieldDef>, mode: Mode)
    returns (r: Result<(Body, Body, bool), FoldError>)
    requires CUSTOM !in declared
    ensures r.Ok? ==>
      && r.value.0 == Declared(payload, declared)
      && r.value.1 == Moved(payload, declared, defs)
      && (r.value.2 <==> CUSTOM in payload || Undeclared(payload, declared) != map[])
      && AllAccepted(rules, defs, Moved(payload, declared, defs))
      && Undeclared(payload, declared).Keys !! UNSAFE_KEYS
    ensures r.Err? ==> Applies(rules, payload, declared, defs, mode, r.error) && r.error != OverCap
  {
    hide Refusal, Part, Applies, AllAccepted;
    var kept: Body, moved: Body, any := map[], map[], false;
    ghost var rest, known := Undeclared(payload, declared), Declared(payload, declared);
    ghost var seen: set<string> := {};
    var pending := payload.Keys;
    PartNothing(known);
    PartNothing(rest);
    AcceptNothing(rules, defs);
    while pending != {}
      invariant seen == payload.Keys - pending && pending <= payload.Keys
      invariant kept == Part(known, seen)
      invariant moved == if defs == [] then map[] else Part(rest, seen)
      invariant any <==> exists k :: k in seen && k !in declared
      invariant AllAccepted(rules, defs, moved)
      invariant (rest.Keys * seen) !! UNSAFE_KEYS
      decreases |pending|
    {
      var key :| key in pending;
      PartStep(known, seen, key);
      PartStep(rest, seen, key);
      if key in declared {
        kept := kept[key := payload[key]];
      } else {
        any := true;
        if key != CUSTOM {
          var why := CheckUndeclared(rules, defs, key, payload[key]);
          if why.Some? {
            RefusedKey(rules, payload, declared, defs, mode, key, why.value);
            return Err(why.value);
          }
          if defs != [] {
            AcceptMore(rules, defs, moved, key, payload[key]);
            moved := moved[key := payload[key]];
          }
        }
      }
      pending := pending - {key};
      seen := seen + {key};
    }
    PartAll(rest, seen);
    PartAll(known, seen);
    assert any <==> CUSTOM in payload || rest != map[] by {
      if k :| k in payload && k !in declared && k != CUSTOM { assert k in rest; }
      if rest != map[] { var k :| k in rest; }
    }
    assert rest.Keys * seen == rest.Keys;
    r := Ok((kept, moved, any));
  }

  lemma PartNothing(values: Body)
    ensures Part(values, {}) == map[]
  {
  }

  lemma PartAll(values: Body, keys: set<string>)
    requires values.Keys <= keys
    ensures Part(values, keys) == values
  {
  }

  lemma AcceptNothing(rules: ValueRules, defs: seq<FieldDef>)
    ensures AllAccepted(rules, defs, map[])
  {
  }

  method CheckRequired(defs: seq<FieldDef>, custom: Body) returns (missing: Option<string>)
    ensures missing.None? <==> RequiredGiven(defs, custom)
    ensures missing.Some? ==> LacksRequired(defs, custom, missing.value)
  {
    for i := 0 to |defs|
      invariant forall d | d in defs[..i] && d.required :: d.name in custom && !Empty(custom[d.name])
    {
      var d := defs[i];
      assert d in defs;
      if d.required && (d.name !in custom || Empty(custom[d.name])) {
        return Some(d.name);
      }
      assert defs[..i + 1] == defs[..i] + [d];
    }
    assert defs[..|defs|] == defs;
    missing := None;
  }

  /** The request fold: accepted exactly when `Foldable`, with `Folded` as the new payload. */
  method FoldCustom(rules: ValueRules, payload: Json, declared: set<string>, defs: seq<FieldDef>, mode: Mode)
    returns (r: Result<Json, FoldError>)
    ensures !payload.Obj? ==> r == Ok(payload)
    ensures payload.Obj? && CUSTOM in declared ==> r == Ok(Obj(Declared(payload.fields, declared)))
    ensures payload.Obj? && CUSTOM !in declared ==>
      if Foldable(rules, payload.fields, declared, defs, mode) then r == Ok(Obj(Folded(payload.fields, declared, defs)))
      else r.Err? && Applies(rules, payload.fields, declared, defs, mode, r.error)
  {
    if !payload.Obj? {
      return Ok(payload);
    }
    var body := payload.fields;
    if CUSTOM in declared {
      return Ok(Obj(Declared(body, declared)));
    }
    var explicit := CheckExplicit(rules, body, declared, defs, mode);
    if explicit.Err? {
      AppliesMeansUnfoldable(rules, body, declared, defs, mode, explicit.error);
      return Err(explicit.error);
    }
    var sorted := MoveUndeclared(rules, body, declared, defs, mode);
    if sorted.Err? {
      AppliesMeansUnfoldable(rules, body, declared, defs, mode, sorted.error);
      return Err(sorted.error);
    }
    var (kept, undeclared, moved) := sorted.value;
    var custom := explicit.value + undeclared;
    if mode == Create {
      var missing := CheckRequired(defs, custom);
      if missing.Some? {
        return Err(Required(missing.value));
      }
    }
    if !moved && |custom| == 0 {
      assert Declared(body, declared) == body by { NothingMoved(body, declared); }
      return Ok(payload);
    }
    if |custom| == 0 {
      return Ok(Obj(kept));
    }
    if !WithinCaps(rules.json, custom) {
      return Err(OverCap);
    }
    r := Ok(Obj(kept[CUSTOM := Obj(custom)]));
  }

  lemma NothingMoved(payload: Body, declared: set<string>)
    requires CUSTOM !in payload && Undeclared(payload, declared) == map[]
    ensures Declared(payload, declared) == payload
  {
    forall k | k in payload ensures k in declared {
      assert k !in Undeclared(payload, declared);
    }
  }

  // --- what an accepted fold means -------------------------------------------------------------

  /** What goes under a custom name: the undeclared key of that name, or else what the request's `custom` says. */
  function CustomValue(payload: Body, declared: set<string>, defs: seq<FieldDef>, name: string): Option<Json> {
    if defs == [] then None
    else if name in payload && name !in declared && name != "custom" then Some(payload[name])
    else if "custom" in payload && payload["custom"].Obj? then Get(payload["custom"].fields, name)
    else None
  }

  lemma CollectedAt(payload: Body, declared: set<string>, defs: seq<FieldDef>, name: string)
    ensures Get(Collected(payload, declared, defs), name) == CustomValue(payload, declared, defs, name)
  {
  }

  /** A payload's value for a required definition: there, neither null nor the empty string. */
  predicate HasValue(v: Option<Json>) {
    v.Some? && v.value != Null && v.value != Str("")
  }

  /** `custom` is an object, no undeclared key is unsafe, and with definitions every custom value sent is given under one. */
  ghost predicate AllGiven(rules: ValueRules, payload: Body, declared: set<string>, defs: seq<FieldDef>) {
    && ("custom" in payload ==> payload["custom"].Obj?)
    && (forall k | k in payload && k !in declared && k != "custom" :: k !in PROTOTYPES)
    && (defs != [] ==>
          && (forall k | k in payload && k !in declared && k != "custom" :: Given(rules, defs, k, payload[k]))
          && ("custom" in payload ==>
                forall n | n in payload["custom"].fields :: Given(rules, defs, n, payload["custom"].fields[n])))
  }

  /** When a payload is accepted, spelled out on the payload: values, required definitions and caps. */
  lemma FoldableExactly(rules: ValueRules, payload: Body, declared: set<string>, defs: seq<FieldDef>, mode: Mode)
    ensures Foldable(rules, payload, declared, defs, mode) <==>
      && AllGiven(rules, payload, declared, defs)
      && (mode == Create ==> forall d | d in defs && d.required :: HasValue(CustomValue(payload, declared, defs, d.name)))
      && var custom := Collected(payload, declared, defs);
         custom == map[] || (|custom| <= 32 && |rules.json(Obj(custom))| <= 8192)
  {
    forall name, v ensures Refusal(rules, defs, name, v) == None <==> Given(rules, defs, name, v) {
      RefusalExactly(rules, defs, name, v);
    }
    forall name ensures Get(Collected(payload, declared, defs), name) == CustomValue(payload, declared, defs, name) {
      CollectedAt(payload, declared, defs, name);
    }
    GivenParts(rules, payload, declared, defs);
    RequiredExactly(payload, declared, defs);
    hide Refusal, Given, Collected, CustomValue, AllAccepted, RequiredGiven;
  }

  lemma RequiredExactly(payload: Body, declared: set<string>, defs: seq<FieldDef>)
    ensures RequiredGiven(defs, Collected(payload, declared, defs))
       <==> forall d | d in defs && d.required :: HasValue(CustomValue(payload, declared, defs, d.name))
  {
    forall name ensures Get(Collected(payload, declared, defs), name) == CustomValue(payload, declared, defs, name) {
      CollectedAt(payload, declared, defs, name);
    }
    hide Collected, CustomValue;
  }

  lemma GivenParts(rules: ValueRules, payload: Body, declared: set<string>, defs: seq<FieldDef>)
    requires forall name, v :: Refusal(rules, defs, name, v) == None <==> Given(rules, defs, name, v)
    ensures AllGiven(rules, payload, declared, defs) <==>
      && (CUSTOM in payload ==> payload[CUSTOM].Obj?)
      && Undeclared(payload, declared).Keys !! UNSAFE_KEYS
      && AllAccepted(rules, defs, Explicit(payload, defs))
      && AllAccepted(rules, defs, Moved(payload, declared, defs))
  {
    hide Refusal, Given;
    var rest, sent, moved := Undeclared(payload, declared), Explicit(payload, defs), Moved(payload, declared, defs);
    if AllGiven(rules, payload, declared, defs) {
      forall k | k in rest ensures k !in UNSAFE_KEYS { assert k in payload && k !in declared && k != "custom"; }
      forall n | n in sent ensures Refusal(rules, defs, n, sent[n]) == None { assert Given(rules, defs, n, sent[n]); }
      forall n | n in moved ensures Refusal(rules, defs, n, moved[n]) == None { assert Given(rules, defs, n, moved[n]); }
    }
    if rest.Keys !! UNSAFE_KEYS && AllAccepted(rules, defs, sent) && AllAccepted(rules, defs, moved) && (CUSTOM in payload ==> payload[CUSTOM].Obj?) {
      forall k | k in payload && k !in declared && k != "custom"
        ensures k !in PROTOTYPES && (defs != [] ==> Given(rules, defs, k, payload[k]))
      {
        assert k in rest;
        if defs != [] { assert moved[k] == payload[k] && Refusal(rules, defs, k, moved[k]) == None; }
      }
      if defs != [] && "custom" in payload {
        forall n | n in payload["custom"].fields ensures Given(rules, defs, n, payload["custom"].fields[n]) {
          assert sent[n] == payload["custom"].fields[n] && Refusal(rules, defs, n, sent[n]) == None;
        }
      }
    }
  }

  /**
   * Declared keys are unchanged; under `custom` sits exactly what was sent for each custom name, within both
   * caps, each value given under an active definition; creating gives every required definition a value.
   */
  lemma FoldedMeaning(rules: ValueRules, payload: Body, declared: set<string>, defs: seq<FieldDef>, mode: Mode)
    requires CUSTOM !in declared && Foldable(rules, payload, declared, defs, mode)
    ensures var out := Folded(payload, declared, defs);
      var custom := if CUSTOM in out && out[CUSTOM].Obj? then out[CUSTOM].fields else map[];
      && (forall k | k in declared :: Get(out, k) == Get(payload, k))
      && out.Keys <= declared + {CUSTOM}
      && (CUSTOM in out <==> custom != map[])
      && (forall n :: Get(custom, n) == CustomValue(payload, declared, defs, n))
      && (forall n | n in custom :: Given(rules, defs, n, custom[n]))
      && (custom != map[] ==> |custom| <= 32 && |rules.json(Obj(custom))| <= 8192)
      && (mode == Create ==> forall d | d in defs && d.required :: HasValue(Get(custom, d.name)))
  {
    hide Refusal, Given, CustomValue, RequiredGiven, AllAccepted, HasValue;
    var custom := Collected(payload, declared, defs);
    CollectedGiven(rules, payload, declared, defs);
    RequiredExactly(payload, declared, defs);
  }

  lemma CollectedGiven(rules: ValueRules, payload: Body, declared: set<string>, defs: seq<FieldDef>)
    requires AllAccepted(rules, defs, Explicit(payload, defs)) && AllAccepted(rules, defs, Moved(payload, declared, defs))
    ensures var custom := Collected(payload, declared, defs);
      && (forall name :: Get(custom, name) == CustomValue(payload, declared, defs, name))
      && forall n | n in custom :: Given(rules, defs, n, custom[n])
  {
    var custom := Collected(payload, declared, defs);
    forall name ensures Get(custom, name) == CustomValue(payload, declared, defs, name) {
      CollectedAt(payload, declared, defs, name);
    }
    CollectedAccepted(rules, payload, declared, defs);
    hide Refusal, Given, Collected, CustomValue;
    forall n | n in custom ensures Given(rules, defs, n, custom[n]) {
      RefusalExactly(rules, defs, n, custom[n]);
    }
  }

  /** Folding an accepted payload again accepts it and changes nothing. */
  lemma FoldIdempotent(rules: ValueRules, payload: Body, declared: set<string>, defs: seq<FieldDef>, mode: Mode)
    requires CUSTOM !in declared && Foldable(rules, payload, declared, defs, mode)
    ensures var out := Folded(payload, declared, defs);
      Foldable(rules, out, declared, defs, mode) && Folded(out, declared, defs) == out
  {
    hide Refusal, WithinCaps, RequiredGiven;
    var out := Folded(payload, declared, defs);
    var custom := Collected(payload, declared, defs);
    assert CUSTOM in out <==> custom != map[];
    assert Undeclared(out, declared) == map[];
    if defs == [] { assert custom == map[]; }
    assert Explicit(out, defs) == custom;
    assert Moved(out, declared, defs) == map[];
    assert Collected(out, declared, defs) == custom;
    assert Declared(out, declared) == Declared(payload, declared);
    CollectedAccepted(rules, payload, declared, defs);
  }

  lemma CollectedAccepted(rules: ValueRules, payload: Body, declared: set<string>, defs: seq<FieldDef>)
    requires AllAccepted(rules, defs, Explicit(payload, defs)) && AllAccepted(rules, defs, Moved(payload, declared, defs))
    ensures AllAccepted(rules, defs, Collected(payload, declared, defs))
  {
    hide Refusal;
  }

  /** With no active definitions the fold is off: undeclared values are stripped, nothing is stored. */
  lemma FoldOff(rules: ValueRules, payload: Body, declared: set<string>, mode: Mode)
    requires CUSTOM !in declared
    ensures Folded(payload, declared, []) == Declared(payload, declared)
    ensures Foldable(rules, payload, declared, [], mode)
        <==> (CUSTOM in payload ==> payload[CUSTOM].Obj?) && Undeclared(payload, declared).Keys !! UNSAFE_KEYS
  {
  }
}
