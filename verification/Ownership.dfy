/**
 * Who may move whose data: declared migrations checked against the mounted cubes, the kernel's own
 * ledger and the operator's list, and the ledger each successful boot leaves for the next one.
 */
module Ownership {
  import opened Wrappers
  import opened Strings

  /** A package: a plugin's name, or None for core. */
  type Owner = Option<string>
  type Ledger = map<string, Owner>

  /** `fromPlugin` is None when a manifest leaves it out. */
  datatype Declared = Declared(fromCube: string, toCube: string, fromPlugin: Option<Owner>)
  datatype Definition = Definition(name: string, plugin: Owner, migrations: seq<Declared>)
  datatype Claim = Claim(declarer: string, plugin: Owner, migration: Declared)
  datatype Validated = Validated(fromCube: string, toCube: string, fromPlugin: Owner, declaredBy: Owner)
  datatype Entry = Entry(name: string, plugin: Owner)

  // --- maps written entry by entry ---------------------------------------------------------------

  /** Entries written in order over a map: the last one of a name stands. */
  function Written(ledger: Ledger, es: seq<Entry>): Ledger {
    if es == [] then ledger
    else Written(ledger, es[..|es| - 1])[es[|es| - 1].name := es[|es| - 1].plugin]
  }

  lemma {:induction false} WrittenTwice(ledger: Ledger, a: seq<Entry>, b: seq<Entry>)
    ensures Written(ledger, a + b) == Written(Written(ledger, a), b)
  {
    if b == [] {
      assert a + b == a;
    } else {
      assert (a + b)[..|a + b| - 1] == a + b[..|b| - 1];
      WrittenTwice(ledger, a, b[..|b| - 1]);
    }
  }

  /** When every entry of a name carries one owner, that owner stands. */
  lemma {:induction false} WrittenAgrees(ledger: Ledger, es: seq<Entry>, name: string, owner: Owner)
    requires forall e | e in es && e.name == name :: e.plugin == owner
    requires Entry(name, owner) in es || (name in ledger && ledger[name] == owner)
    ensures name in Written(ledger, es) && Written(ledger, es)[name] == owner
  {
    if es != [] {
      var init, last := es[..|es| - 1], es[|es| - 1];
      assert es == init + [last] && last in es;
      if last.name != name {
        WrittenAgrees(ledger, init, name, owner);
      }
    }
  }

  lemma {:induction false} WrittenNames(ledger: Ledger, es: seq<Entry>, name: string)
    ensures name in Written(ledger, es) ==>
      (name in ledger && Written(ledger, es)[name] == ledger[name]) || Entry(name, Written(ledger, es)[name]) in es
    ensures (forall e | e in es :: e.name != name) ==>
      (name in Written(ledger, es) <==> name in ledger)
    ensures forall e | e in es :: e.name in Written(ledger, es)
  {
    if es != [] {
      var init, last := es[..|es| - 1], es[|es| - 1];
      assert es == init + [last] && last in es;
      WrittenNames(ledger, init, name);
      forall e | e in es ensures e.name in Written(ledger, es) {
        if e in init { WrittenNames(ledger, init, e.name); }
      }
    }
  }

  // --- the operator's list -----------------------------------------------------------------------

  /** `cube:package`; None when no package is named. */
  function Grant(item: string): (string, Option<Owner>) {
    var parts := Split(item, ':');
    (parts[0], if |parts| < 2 then None else Some(if parts[1] == "core" then None else Some(parts[1])))
  }

  function Granted(items: seq<string>): map<string, Option<Owner>> {
    if items == [] then map[]
    else
      var g := Grant(items[|items| - 1]);
      Granted(items[..|items| - 1])[g.0 := g.1]
  }

  function Authorized(legacy: string): map<string, Option<Owner>> {
    Granted(Filter(TrimAll(Split(legacy, ',')), s => s != ""))
  }

  /** How an item of the list is read: `cube:package`, with `core` for core; without a package it grants nothing. */
  lemma GrantSpelled(cube: string, package: string, rest: string)
    requires ':' !in cube && ':' !in package
    ensures Grant(cube + ":" + package) == (cube, Some(if package == "core" then None else Some(package)))
    ensures Grant(cube + ":" + package + ":" + rest) == Grant(cube + ":" + package)
    ensures Grant(cube) == (cube, None)
  {
    hide Split;
    SplitHead(package, rest, ':');
    SplitHead(cube, package + ([':'] + rest), ':');
    assert cube + ([':'] + (package + ([':'] + rest))) == cube + ":" + package + ":" + rest;
    SplitPlain(cube, ':');
    SplitPlain(package, ':');
    SplitHead(cube, package, ':');
    assert cube + ([':'] + package) == cube + ":" + package;
  }

  /** A trimmed, comma-free item of the operator's list. */
  predicate CleanItem(item: string) {
    item != "" && ',' !in item && Trim(item) == item
  }

  /** Trimmed, comma-free items read back from the list as they are: of a cube, the last item stands. */
  lemma GrantsReadBack(items: seq<string>)
    requires items != [] && forall s | s in items :: CleanItem(s)
    ensures var grants := Authorized(Join(items, ','));
      && (forall cube :: cube in grants <==> exists s :: s in items && Grant(s).0 == cube)
      && forall i | 0 <= i < |items| && (forall j | i < j < |items| :: Grant(items[j]).0 != Grant(items[i]).0) ::
           Grant(items[i]).0 in grants && grants[Grant(items[i]).0] == Grant(items[i]).1
  {
    hide Grant;
    SplitJoin(items, ',');
    assert TrimAll(items) == items by {
      forall i | 0 <= i < |items| ensures TrimAll(items)[i] == items[i] { assert items[i] in items; }
    }
    FilterAll(items, s => s != "");
    forall cube ensures cube in Granted(items) <==> exists s :: s in items && Grant(s).0 == cube { GrantedCubes(items, cube); }
    forall i | 0 <= i < |items| && (forall j | i < j < |items| :: Grant(items[j]).0 != Grant(items[i]).0)
      ensures Grant(items[i]).0 in Granted(items) && Granted(items)[Grant(items[i]).0] == Grant(items[i]).1
    {
      LastGrant(items, i);
    }
  }

  lemma {:induction false} GrantedCubes(items: seq<string>, cube: string)
    ensures cube in Granted(items) <==> exists s :: s in items && Grant(s).0 == cube
  {
    if items != [] {
      var init, last := items[..|items| - 1], items[|items| - 1];
      GrantedCubes(init, cube);
      assert items == init + [last];
    }
  }

  lemma {:induction false} LastGrant(items: seq<string>, i: nat)
    requires i < |items| && forall j | i < j < |items| :: Grant(items[j]).0 != Grant(items[i]).0
    ensures Grant(items[i]).0 in Granted(items) && Granted(items)[Grant(items[i]).0] == Grant(items[i]).1
    decreases |items|
  {
    if i < |items| - 1 {
      LastGrant(items[..|items| - 1], i);
    }
  }

  // --- the checks --------------------------------------------------------------------------------

  /** The checks on one declared migration, in the order they are made. */
  datatype Check =
    | DestinationMounted | DestinationOwned | SourceNotLive | SourceNamed | LedgerAgrees | SourceKnown | ProvenanceOwned

  const CHECKS := [DestinationMounted, DestinationOwned, SourceNotLive, SourceNamed, LedgerAgrees, SourceKnown, ProvenanceOwned]

  datatype Refused = Refused(claim: Claim, broken: Check)

  datatype World = World(mounted: Ledger, ledger: Ledger, authorized: map<string, Option<Owner>>)

  predicate Passes(w: World, c: Claim, check: Check) {
    var m := c.migration;
    match check
    case DestinationMounted => m.toCube in w.mounted
    case DestinationOwned => m.toCube in w.mounted ==> w.mounted[m.toCube] == c.plugin
    case SourceNotLive => m.fromCube in w.mounted ==> w.mounted[m.fromCube] == c.plugin
    case SourceNamed => m.fromPlugin.Some?
    case LedgerAgrees => m.fromCube in w.ledger ==> m.fromPlugin == Some(w.ledger[m.fromCube])
    case SourceKnown =>
      || m.fromCube in w.ledger
      || (m.fromCube in w.authorized && w.authorized[m.fromCube].Some? && w.authorized[m.fromCube] == m.fromPlugin)
    case ProvenanceOwned => m.toCube in w.mounted ==> m.fromPlugin == Some(w.mounted[m.toCube])
  }

  /** The refusal names the first check the claim fails. */
  predicate Explains(w: World, r: Refused) {
    exists k :: 0 <= k < |CHECKS| && r.broken == CHECKS[k] && !Passes(w, r.claim, CHECKS[k])
                && forall j | 0 <= j < k :: Passes(w, r.claim, CHECKS[j])
  }

  /** One package owns the declarer and both ends; the source is recorded for it, or granted to it. */
  predicate Owned(w: World, c: Claim) {
    var m := c.migration;
    && m.toCube in w.mounted && w.mounted[m.toCube] == c.plugin
    && (m.fromCube in w.mounted ==> w.mounted[m.fromCube] == c.plugin)
    && m.fromPlugin == Some(c.plugin)
    && (if m.fromCube in w.ledger then w.ledger[m.fromCube] == c.plugin
        else m.fromCube in w.authorized && w.authorized[m.fromCube] == Some(c.plugin))
  }

  /** Passing every check, one by one, is being owned. */
  lemma OwnedIsEveryCheck(w: World, c: Claim)
    ensures Owned(w, c) <==> forall k | 0 <= k < |CHECKS| :: Passes(w, c, CHECKS[k])
  {
    if forall k | 0 <= k < |CHECKS| :: Passes(w, c, CHECKS[k]) {
      assert Passes(w, c, CHECKS[0]) && Passes(w, c, CHECKS[1]) && Passes(w, c, CHECKS[2]) && Passes(w, c, CHECKS[3]);
      assert Passes(w, c, CHECKS[4]) && Passes(w, c, CHECKS[5]) && Passes(w, c, CHECKS[6]);
    }
  }

  lemma FailsAt(w: World, c: Claim, k: nat)
    requires k < |CHECKS| && !Passes(w, c, CHECKS[k]) && forall j | 0 <= j < k :: Passes(w, c, CHECKS[j])
    ensures Explains(w, Refused(c, CHECKS[k])) && !Owned(w, c)
  {
    OwnedIsEveryCheck(w, c);
  }

  // --- all declared migrations -------------------------------------------------------------------

  function ClaimsOf(d: Definition): (cs: seq<Claim>)
    ensures |cs| == |d.migrations|
    ensures forall j | 0 <= j < |cs| :: cs[j] == Claim(d.name, d.plugin, d.migrations[j])
  {
    seq(|d.migrations|, j requires 0 <= j < |d.migrations| => Claim(d.name, d.plugin, d.migrations[j]))
  }

  function Claims(defs: seq<Definition>): seq<Claim> {
    if defs == [] then [] else Claims(defs[..|defs| - 1]) + ClaimsOf(defs[|defs| - 1])
  }

  lemma {:induction false} ClaimsPrefix(defs: seq<Definition>, i: nat)
    requires i <= |defs|
    ensures Claims(defs[..i]) <= Claims(defs)
    decreases |defs|
  {
    if i < |defs| {
      assert defs[..|defs| - 1][..i] == defs[..i];
      ClaimsPrefix(defs[..|defs| - 1], i);
    } else {
      assert defs[..i] == defs;
    }
  }

  function CubeEntries(defs: seq<Definition>): (es: seq<Entry>)
    ensures |es| == |defs|
    ensures forall i | 0 <= i < |es| :: es[i] == Entry(defs[i].name, defs[i].plugin)
  {
    seq(|defs|, i requires 0 <= i < |defs| => Entry(defs[i].name, defs[i].plugin))
  }

  function Mounted(defs: seq<Definition>): Ledger {
    Written(map[], CubeEntries(defs))
  }

  function WorldOf(defs: seq<Definition>, ledger: Ledger, legacy: string): World {
    World(Mounted(defs), ledger, Authorized(legacy))
  }

  ghost predicate Accepts(defs: seq<Definition>, ledger: Ledger, legacy: string) {
    forall c | c in Claims(defs) :: Owned(WorldOf(defs, ledger, legacy), c)
  }

  ghost predicate Validates(cs: seq<Claim>, out: seq<Validated>) {
    && |out| == |cs|
    && forall i | 0 <= i < |cs| ::
      && out[i].fromCube == cs[i].migration.fromCube && out[i].toCube == cs[i].migration.toCube
      && Some(out[i].fromPlugin) == cs[i].migration.fromPlugin && out[i].declaredBy == cs[i].plugin
  }

  /** The claim refused is the first one not owned, and the reason is the first check it fails. */
  ghost predicate FirstRefusal(w: World, cs: seq<Claim>, r: Refused) {
    exists k :: 0 <= k < |cs| && cs[k] == r.claim && !Owned(w, r.claim) && Explains(w, r)
                && forall j | 0 <= j < k :: Owned(w, cs[j])
  }

  lemma RefusedHere(w: World, cs: seq<Claim>, before: seq<Claim>, c: Claim, k: nat)
    requires before + [c] <= cs && forall x | x in before :: Owned(w, x)
    requires k < |CHECKS| && !Passes(w, c, CHECKS[k]) && forall j | 0 <= j < k :: Passes(w, c, CHECKS[j])
    ensures FirstRefusal(w, cs, Refused(c, CHECKS[k]))
  {
    FailsAt(w, c, k);
    var i := |before|;
    assert cs[i] == (before + [c])[i] == c;
    forall j | 0 <= j < i ensures Owned(w, cs[j]) {
      assert cs[j] == (before + [c])[j] == before[j];
    }
  }

  /** The ladder of checks on one claim. */
  method CheckClaim(w: World, c: Claim) returns (r: Result<Validated, Check>)
    ensures r.Ok? ==> Owned(w, c) && Validates([c], [r.value])
    ensures r.Err? ==> exists k :: 0 <= k < |CHECKS| && r.error == CHECKS[k] && !Passes(w, c, CHECKS[k])
                                   && forall j | 0 <= j < k :: Passes(w, c, CHECKS[j])
  {
    var m := c.migration;
    if m.toCube !in w.mounted {
      assert CHECKS[0] == DestinationMounted;
      return Err(DestinationMounted);
    }
    var toPlugin := w.mounted[m.toCube];
    if toPlugin != c.plugin {
      assert CHECKS[1] == DestinationOwned;
      return Err(DestinationOwned);
    }
    if m.fromCube in w.mounted && w.mounted[m.fromCube] != c.plugin {
      assert CHECKS[2] == SourceNotLive;
      return Err(SourceNotLive);
    }
    if m.fromPlugin.None? {
      assert CHECKS[3] == SourceNamed;
      return Err(SourceNamed);
    }
    if m.fromCube in w.ledger {
      if w.ledger[m.fromCube] != m.fromPlugin.value {
        assert CHECKS[4] == LedgerAgrees;
        return Err(LedgerAgrees);
      }
    } else {
      if m.fromCube !in w.authorized || w.authorized[m.fromCube].None? || w.authorized[m.fromCube] != m.fromPlugin {
        assert CHECKS[5] == SourceKnown;
        return Err(SourceKnown);
      }
    }
    if m.fromPlugin.value != toPlugin {
      assert CHECKS[6] == ProvenanceOwned;
      return Err(ProvenanceOwned);
    }
    r := Ok(Validated(m.fromCube, m.toCube, m.fromPlugin.value, c.plugin));
  }

  /** The claims met so far, all owned, and what was returned for them. */
  ghost predicate Checked(w: World, before: seq<Claim>, out: seq<Validated>) {
    Validates(before, out) && forall c | c in before :: Owned(w, c)
  }

  lemma CheckedNext(w: World, before: seq<Claim>, out: seq<Validated>, c: Claim, v: Validated)
    requires Checked(w, before, out) && Owned(w, c) && Validates([c], [v])
    ensures Checked(w, before + [c], out + [v])
  {
    hide Owned;
    assert [c][0] == c && [v][0] == v;
  }

  lemma NothingChecked(w: World, defs: seq<Definition>)
    ensures Checked(w, Claims(defs[..0]), [])
  {
  }

  /** The claims of the first `i` definitions, and the first `j` of the one after them. */
  function ClaimsTo(defs: seq<Definition>, i: nat, j: nat): seq<Claim>
    requires i < |defs| && j <= |defs[i].migrations|
  {
    Claims(defs[..i]) + ClaimsOf(defs[i])[..j]
  }

  lemma ClaimsToNext(defs: seq<Definition>, i: nat, j: nat)
    requires i < |defs| && j < |defs[i].migrations|
    ensures ClaimsTo(defs, i, j + 1) == ClaimsTo(defs, i, j) + [Claim(defs[i].name, defs[i].plugin, defs[i].migrations[j])]
    ensures ClaimsTo(defs, i, j + 1) <= Claims(defs)
  {
    ClaimsToEnd(defs, i);
    ClaimsPrefix(defs, i + 1);
  }

  lemma ClaimsToEnd(defs: seq<Definition>, i: nat)
    requires i < |defs|
    ensures ClaimsTo(defs, i, 0) == Claims(defs[..i])
    ensures ClaimsTo(defs, i, |defs[i].migrations|) == Claims(defs[..i + 1])
  {
    assert defs[..i + 1][..i] == defs[..i];
    assert ClaimsOf(defs[i])[..|defs[i].migrations|] == ClaimsOf(defs[i]);
  }

  /** Every declared migration in order; the first one refused stops the boot. */
  method CheckMigrationOwnership(defs: seq<Definition>, ledger: Ledger, legacy: string)
    returns (r: Result<seq<Validated>, Refused>)
    ensures match r
      case Ok(out) => Accepts(defs, ledger, legacy) && Validates(Claims(defs), out)
      case Err(e) => FirstRefusal(WorldOf(defs, ledger, legacy), Claims(defs), e)
  {
    hide Owned, Passes, Authorized, Mounted, Explains, Claims, ClaimsTo, Validates, FirstRefusal;
    var w := WorldOf(defs, ledger, legacy);
    var out := [];
    NothingChecked(w, defs);
    for i := 0 to |defs|
      invariant Checked(w, Claims(defs[..i]), out)
    {
      var d := defs[i];
      ClaimsToEnd(defs, i);
      for j := 0 to |d.migrations|
        invariant Checked(w, ClaimsTo(defs, i, j), out)
      {
        var c := Claim(d.name, d.plugin, d.migrations[j]);
        ClaimsToNext(defs, i, j);
        var checked := CheckClaim(w, c);
        if checked.Err? {
          ghost var k :| 0 <= k < |CHECKS| && checked.error == CHECKS[k] && !Passes(w, c, CHECKS[k])
                         && forall j | 0 <= j < k :: Passes(w, c, CHECKS[j]);
          RefusedHere(w, Claims(defs), ClaimsTo(defs, i, j), c, k);
          return Err(Refused(c, checked.error));
        }
        CheckedNext(w, ClaimsTo(defs, i, j), out, c, checked.value);
        out := out + [checked.value];
      }
    }
    assert defs[..|defs|] == defs;
    r := Ok(out);
  }

  // --- the ledger file ---------------------------------------------------------------------------

  predicate Slug(s: string) {
    s != "" && 'a' <= s[0] <= 'z' && forall c | c in s :: 'a' <= c <= 'z' || '0' <= c <= '9' || c == '-'
  }

  /** One slug, or a parent and a child with a slash between. */
  predicate CubeIdentity(s: string) {
    var parts := Split(s, '/');
    |parts| <= 2 && forall p | p in parts :: Slug(p)
  }

  predicate LowerCode(n: int) { 97 <= n <= 122 }

  /** `[a-z][a-z0-9-]*`, by character codes. */
  predicate SlugShaped(s: string) {
    && s != "" && LowerCode(s[0] as int)
    && forall i | 0 < i < |s| :: var n := s[i] as int; LowerCode(n) || 48 <= n <= 57 || n == 45
  }

  /** One such text, or two with a slash between. */
  predicate IdentityShaped(s: string) {
    SlugShaped(s) || exists i :: 0 <= i < |s| && s[i] == '/' && SlugShaped(s[..i]) && SlugShaped(s[i + 1..])
  }

  lemma IdentitySpelled(s: string)
    ensures Slug(s) <==> SlugShaped(s)
    ensures CubeIdentity(s) <==> IdentityShaped(s)
  {
    forall t: string ensures Slug(t) <==> SlugShaped(t) { SlugByShape(t); }
    forall i | 0 <= i < |s| && s[i] == '/' && '/' !in s[..i]
      ensures Split(s, '/') == [s[..i]] + Split(s[i + 1..], '/')
    {
      SplitHead(s[..i], s[i + 1..], '/');
      assert s == s[..i] + (['/'] + s[i + 1..]);
    }
    if '/' !in s {
      SplitPlain(s, '/');
    } else {
      var i := FirstAt(s, '/');
      var rest := s[i + 1..];
      if '/' !in rest { SplitPlain(rest, '/'); } else { ManyParts(rest, '/'); }
      forall k | i < k < |s| ensures '/' in s[..k] { assert s[..k][i] == '/'; }
      hide SlugShaped;
      NoSlash();
      if k :| 0 <= k < |s| && s[k] == '/' && SlugShaped(s[..k]) && SlugShaped(s[k + 1..]) {
        assert k == i;
      }
    }
  }

  lemma SlugByShape(s: string)
    ensures Slug(s) <==> SlugShaped(s)
  {
    if SlugShaped(s) {
      forall c | c in s ensures 'a' <= c <= 'z' || '0' <= c <= '9' || c == '-' { }
    }
    if Slug(s) {
      forall i | 0 < i < |s| ensures var n := s[i] as int; LowerCode(n) || 48 <= n <= 57 || n == 45 {
        assert s[i] in s;
      }
    }
  }

  lemma NoSlash()
    ensures forall s | SlugShaped(s) :: '/' !in s
  {
  }

  lemma {:induction false} FirstAt(s: string, c: char) returns (i: nat)
    requires c in s
    ensures i < |s| && s[i] == c && c !in s[..i]
  {
    if s[0] == c {
      i := 0;
    } else {
      var k := FirstAt(s[1..], c);
      i := k + 1;
      assert s[..i] == [s[0]] + s[1..][..k];
    }
  }

  lemma ManyParts(s: string, sep: char)
    requires sep in s
    ensures |Split(s, sep)| > 1
  {
    if |Split(s, sep)| == 1 { OnePart(s, sep); }
  }

  predicate ReadableEntry(name: string, owner: Owner) {
    CubeIdentity(name) && (owner.Some? ==> Slug(owner.value))
  }

  predicate Readable(ledger: Ledger) {
    forall name | name in ledger :: ReadableEntry(name, ledger[name])
  }

  datatype LedgerFile = Absent | Malformed | Holds(ledger: Ledger)

  /** What a boot may start from. */
  predicate Sound(f: LedgerFile) {
    f.Absent? || (f.Holds? && Readable(f.ledger))
  }

  /** A ledger can be read exactly when every name is a cube identity and every owner a package's or core. */
  lemma SoundExactly(f: LedgerFile)
    ensures Sound(f) <==> !f.Malformed? && (f.Holds? ==> forall name | name in f.ledger ::
      IdentityShaped(name) && (f.ledger[name].Some? ==> SlugShaped(f.ledger[name].value)))
  {
    forall s: string ensures (Slug(s) <==> SlugShaped(s)) && (CubeIdentity(s) <==> IdentityShaped(s)) { IdentitySpelled(s); }
    hide Slug, CubeIdentity, SlugShaped, IdentityShaped;
  }

  function Trusted(f: LedgerFile): Ledger {
    if f.Holds? then f.ledger else map[]
  }

  /** Mounted cubes first, then the source of every migration under the package that declared it. */
  function SourceEntries(cs: seq<Claim>): (es: seq<Entry>)
    ensures |es| == |cs|
    ensures forall i | 0 <= i < |cs| :: es[i] == Entry(cs[i].migration.fromCube, cs[i].plugin)
  {
    seq(|cs|, i requires 0 <= i < |cs| => Entry(cs[i].migration.fromCube, cs[i].plugin))
  }

  function NextLedger(defs: seq<Definition>, ledger: Ledger): Ledger {
    Written(ledger, CubeEntries(defs) + SourceEntries(Claims(defs)))
  }

  /** Which steps of replacing the file go wrong. */
  datatype Faults = Faults(makeDirectory: bool, open: bool, write: bool, syncFile: bool, rename: bool, syncDirectory: bool, remove: bool)

  /** How replacing the file ends: safe on disk, in place but not reported safe, or not written at all. */
  datatype Replacing = Safe | Unsynced | Lost

  function OutcomeOf(f: Faults): Replacing {
    if f.makeDirectory || f.open || f.write || f.syncFile || f.rename then Lost else if f.syncDirectory then Unsynced else Safe
  }

  function Replaced(before: LedgerFile, ledger: Ledger, outcome: Replacing): LedgerFile {
    if outcome.Lost? then before else Holds(ledger)
  }

  /** A temporary file, and whether its contents are on disk for certain. */
  datatype Temp = Temp(content: LedgerFile, synced: bool)

  datatype BootError = LedgerCorrupt | LedgerTampered | NotRestored | Unowned(refused: Refused) | LaterStep | LedgerUnwritten

  /**
   * What goes right in a boot: importing the packages, reading the ledger again before and after the
   * mount, and the migrations, the mount and the life rules (`later`). A boot restores the ledger at most once.
   */
  datatype BootLuck = BootLuck(loads: bool, rereads: bool, later: bool, rereadsAgain: bool, restore: Faults, write: Faults)

  class Provenance {
    /** The ledger file as it reads now. */
    var file: LedgerFile
    /** What it may read as after a crash now, and after a crash at any moment so far. */
    ghost var survives: set<LedgerFile>
    ghost var ever: set<LedgerFile>
    /** Its contents, as opposed to its name, are on disk for certain. */
    ghost var settled: bool
    var temp: Option<Temp>

    constructor (file: LedgerFile)
      ensures this.file == file && survives == ever == {file} && temp.None?
    {
      this.file := file;
      survives, ever, settled, temp := {file}, {file}, true, None;
    }

    ghost predicate Valid()
      reads this
    {
      file in survives && survives <= ever
    }

    /** Whatever package code does to the file, it may or may not survive a crash. */
    method Touch(change: LedgerFile -> LedgerFile)
      requires Valid()
      modifies this
      ensures Valid() && file == change(old(file)) && temp == old(temp)
      ensures survives == old(survives) + {file} && ever == old(ever) + {file}
    {
      file := change(file);
      survives, ever, settled := survives + {file}, ever + {file}, false;
    }

    method WriteTemp(content: LedgerFile, fails: bool) returns (ok: bool)
      modifies this`temp
      ensures ok <==> !fails
      ensures temp == Some(Temp(if ok then content else Malformed, false))
    {
      ok := !fails;
      temp := Some(Temp(if ok then content else Malformed, false));
    }

    method SyncTemp(fails: bool) returns (ok: bool)
      requires temp.Some?
      modifies this`temp
      ensures ok <==> !fails
      ensures temp == Some(Temp(old(temp).value.content, ok))
    {
      ok := !fails;
      temp := Some(temp.value.(synced := ok));
    }

    /** The name moves at once; after a crash it may be back, and contents not on disk for certain may be torn. */
    method RenameTemp(fails: bool) returns (ok: bool)
      requires Valid() && temp.Some?
      modifies this
      ensures Valid() && (ok <==> !fails)
      ensures !ok ==> file == old(file) && survives == old(survives) && ever == old(ever) && temp == old(temp)
      ensures ok ==> file == old(temp).value.content && settled == old(temp).value.synced && temp.None?
      ensures ok ==> var torn := if old(temp).value.synced then {} else {Malformed};
        survives == old(survives) + {file} + torn && ever == old(ever) + {file} + torn
    {
      ok := !fails;
      if ok {
        ghost var torn := if temp.value.synced then {} else {Malformed};
        file, settled := temp.value.content, temp.value.synced;
        survives, ever := survives + {file} + torn, ever + {file} + torn;
        temp := None;
      }
    }

    /** The directory on disk: the name now means the present file for certain. */
    method SyncDirectory(fails: bool) returns (ok: bool)
      requires Valid()
      modifies this`survives, this`ever
      ensures Valid() && (ok <==> !fails)
      ensures survives == if !ok then old(survives) else if settled then {file} else {file, Malformed}
      ensures ever == old(ever) + survives
    {
      ok := !fails;
      if ok {
        survives := if settled then {file} else {file, Malformed};
      }
      ever := ever + survives;
    }

    /**
     * Write aside, sync, rename, sync the directory; the temporary file goes whatever happens. The file
     * reads as the old ledger or the new one, and so it does after a crash at any moment; a return without
     * error means that only the new one can be left.
     */
    method ReplaceLedger(ledger: Ledger, faults: Faults) returns (ok: bool)
      requires Valid()
      modifies this
      ensures Valid()
      ensures ok <==> OutcomeOf(faults).Safe?
      ensures file == Replaced(old(file), ledger, OutcomeOf(faults))
      ensures ok ==> survives == {Holds(ledger)}
      ensures survives <= old(survives) + {Holds(ledger)} && ever <= old(ever) + {Holds(ledger)} && old(ever) <= ever
      ensures !faults.remove ==> temp.None? || temp == old(temp)
    {
      if faults.makeDirectory || faults.open {
        return false;
      }
      ok := WriteTemp(Holds(ledger), faults.write);
      if ok {
        ok := SyncTemp(faults.syncFile);
      }
      if ok {
        ok := RenameTemp(faults.rename);
      }
      if ok {
        ok := SyncDirectory(faults.syncDirectory);
      }
      if !faults.remove {
        temp := None;
      }
    }

    /** Goes on when the file can be read and is what the trusted snapshot says; otherwise puts the snapshot back if it can. */
    method VerifyUnchanged(snapshot: LedgerFile, rereads: bool, restore: Faults) returns (why: Option<BootError>)
      requires Valid() && Sound(snapshot)
      modifies this
      ensures Valid() && ever <= old(ever) + {Holds(Trusted(snapshot))}
      ensures survives <= old(survives) + {Holds(Trusted(snapshot))}
      ensures why.None? <==> rereads && old(file) == snapshot
      ensures why.None? ==> file == old(file) && survives == old(survives)
      ensures why.Some? ==> file == Replaced(old(file), Trusted(snapshot), OutcomeOf(restore))
      ensures why.Some? ==> why.value == if OutcomeOf(restore).Safe? then LedgerTampered else NotRestored
    {
      var same := rereads && Sound(file) && file.Absent? == snapshot.Absent?
                  && (snapshot.Absent? || Trusted(file) == snapshot.ledger);
      if same {
        return None;
      }
      var ok := ReplaceLedger(if snapshot.Holds? then snapshot.ledger else map[], restore);
      why := Some(if ok then LedgerTampered else NotRestored);
    }

    method WriteLedger(snapshot: LedgerFile, entries: seq<Entry>, write: Faults) returns (ok: bool)
      requires Valid() && Sound(snapshot)
      modifies this
      ensures Valid() && ever <= old(ever) + {Holds(Written(Trusted(snapshot), entries))}
      ensures file == Replaced(old(file), Written(Trusted(snapshot), entries), OutcomeOf(write))
      ensures ok <==> OutcomeOf(write).Safe?
      ensures ok ==> survives == {Holds(Written(Trusted(snapshot), entries))}
    {
      var next := if snapshot.Holds? then snapshot.ledger else map[];
      for i := 0 to |entries|
        invariant next == Written(Trusted(snapshot), entries[..i])
        invariant Valid() && file == old(file) && survives == old(survives) && ever == old(ever)
      {
        next := next[entries[i].name := entries[i].plugin];
        assert entries[..i + 1][..i] == entries[..i];
      }
      assert entries[..|entries|] == entries;
      ok := ReplaceLedger(next, write);
    }

    /**
     * One boot. `imports` and `mounts` are what package code does to the ledger file while it is
     * imported and mounted. A boot that goes through started from a sound ledger nobody touched. A boot
     * that fails earlier leaves the trusted ledger as it found it, unless putting it back fails: then
     * what package code left stays. A boot that fails in writing leaves the old ledger or the new one.
     */
    method Boot(defs: seq<Definition>, legacy: string, imports: LedgerFile -> LedgerFile,
                mounts: LedgerFile -> LedgerFile, luck: BootLuck)
      returns (r: Result<seq<Validated>, BootError>)
      requires Valid()
      modifies this
      ensures Valid()
      ensures r.Ok? <==> GoesThrough(old(file), defs, legacy, imports, mounts, luck) && OutcomeOf(luck.write).Safe?
      ensures r.Ok? ==> Validates(Claims(defs), r.value) && file == Holds(NextLedger(defs, Trusted(old(file)))) && survives == {file}
      ensures r.Ok? ==> Records(defs, Trusted(old(file)), file.ledger)
      ensures r == Err(LedgerUnwritten) <==> GoesThrough(old(file), defs, legacy, imports, mounts, luck) && !OutcomeOf(luck.write).Safe?
      ensures r == Err(LedgerUnwritten) ==> file == Replaced(old(file), NextLedger(defs, Trusted(old(file))), OutcomeOf(luck.write))
      ensures r == Err(LedgerCorrupt) <==> !Sound(old(file))
      ensures r == Err(LedgerCorrupt) ==> file == old(file)
      ensures r.Err? && Sound(old(file)) && r.error != LedgerUnwritten && !OutcomeOf(luck.restore).Lost? ==>
        Sound(file) && Trusted(file) == Trusted(old(file))
      ensures r.Err? && Sound(old(file)) && r.error != LedgerUnwritten && OutcomeOf(luck.restore).Lost? ==>
        file == imports(old(file)) || file == mounts(old(file))
      ensures imports(old(file)) == old(file) == mounts(old(file)) && Sound(old(file)) ==>
        ever <= old(ever) + {old(file), Holds(Trusted(old(file))), Holds(NextLedger(defs, Trusted(old(file))))}
    {
      hide Owned, Readable, Written, CubeIdentity, Explains, Mounted, Authorized, Records;
      var snapshot := file;
      if !Sound(snapshot) {
        return Err(LedgerCorrupt);
      }
      EmptyIsReadable();
      Touch(imports);
      if !luck.loads {
        var _ := VerifyUnchanged(snapshot, luck.rereads, luck.restore);
        return Err(LaterStep);
      }
      var why := VerifyUnchanged(snapshot, luck.rereads, luck.restore);
      if why.Some? {
        return Err(why.value);
      }
      var checked := CheckMigrationOwnership(defs, Trusted(snapshot), legacy);
      if checked.Err? {
        var _ := VerifyUnchanged(snapshot, luck.rereadsAgain, luck.restore);
        RefusalMeansUnaccepted(defs, Trusted(snapshot), legacy, checked.error);
        return Err(Unowned(checked.error));
      }
      Touch(mounts);
      why := VerifyUnchanged(snapshot, luck.rereadsAgain, luck.restore);
      if !luck.later {
        return Err(LaterStep);
      }
      if why.Some? {
        return Err(why.value);
      }
      var entries := CubeEntries(defs) + seq(|checked.value|, i requires 0 <= i < |checked.value| =>
        Entry(checked.value[i].fromCube, checked.value[i].declaredBy));
      assert entries == CubeEntries(defs) + SourceEntries(Claims(defs));
      var ok := WriteLedger(snapshot, entries, luck.write);
      if !ok {
        return Err(LedgerUnwritten);
      }
      BootRecords(defs, Trusted(snapshot), legacy);
      r := Ok(checked.value);
    }
  }

  /** Everything before the ledger is written: a sound ledger nobody touched, owned migrations, steps that succeed. */
  ghost predicate GoesThrough(file: LedgerFile, defs: seq<Definition>, legacy: string, imports: LedgerFile -> LedgerFile,
                              mounts: LedgerFile -> LedgerFile, luck: BootLuck) {
    && Sound(file) && imports(file) == file && mounts(file) == file
    && luck.loads && luck.rereads && luck.later && luck.rereadsAgain
    && Accepts(defs, Trusted(file), legacy)
  }

  lemma EmptyIsReadable()
    ensures Readable(map[])
  {
  }

  lemma RefusalMeansUnaccepted(defs: seq<Definition>, ledger: Ledger, legacy: string, r: Refused)
    requires FirstRefusal(WorldOf(defs, ledger, legacy), Claims(defs), r)
    ensures !Accepts(defs, ledger, legacy)
  {
  }

  // --- from one boot to the next -----------------------------------------------------------------

  /** Every declared source is on record for the package that declares it. */
  ghost predicate Settled(defs: seq<Definition>, ledger: Ledger) {
    forall c | c in Claims(defs) :: c.migration.fromCube in ledger && ledger[c.migration.fromCube] == c.plugin
  }

  /** What the mounted cubes alone decide: destination owned, source not somebody else's live cube. */
  ghost predicate Placed(defs: seq<Definition>) {
    forall c | c in Claims(defs) ::
      && c.migration.toCube in Mounted(defs) && Mounted(defs)[c.migration.toCube] == c.plugin
      && (c.migration.fromCube in Mounted(defs) ==> Mounted(defs)[c.migration.fromCube] == c.plugin)
      && c.migration.fromPlugin == Some(c.plugin)
  }

  /** Two accepted claims on one source come from one package. */
  lemma OneClaimant(w: World, a: Claim, b: Claim)
    requires Owned(w, a) && Owned(w, b) && a.migration.fromCube == b.migration.fromCube
    ensures a.plugin == b.plugin
  {
  }

  /** The ledger an accepted boot writes settles every migration it accepted. */
  lemma AcceptedIsSettled(defs: seq<Definition>, ledger: Ledger, legacy: string)
    requires Accepts(defs, ledger, legacy)
    ensures Placed(defs) && Settled(defs, NextLedger(defs, ledger))
  {
    hide Written, Authorized, Mounted, Claims;
    var w := WorldOf(defs, ledger, legacy);
    var cs := Claims(defs);
    WrittenTwice(ledger, CubeEntries(defs), SourceEntries(cs));
    forall c | c in cs
      ensures c.migration.fromCube in NextLedger(defs, ledger) && NextLedger(defs, ledger)[c.migration.fromCube] == c.plugin
    {
      var i :| 0 <= i < |cs| && cs[i] == c;
      assert SourceEntries(cs)[i] == Entry(c.migration.fromCube, c.plugin);
      forall e | e in SourceEntries(cs) && e.name == c.migration.fromCube ensures e.plugin == c.plugin {
        var j :| 0 <= j < |cs| && SourceEntries(cs)[j] == e;
        OneClaimant(w, cs[j], c);
      }
      WrittenAgrees(Written(ledger, CubeEntries(defs)), SourceEntries(cs), c.migration.fromCube, c.plugin);
    }
  }

  // --- what a boot puts on record ----------------------------------------------------------------

  /** Some mounted package declares a migration from this name. */
  ghost predicate SourceName(defs: seq<Definition>, name: string) {
    exists d, m :: d in defs && m in d.migrations && m.fromCube == name
  }

  predicate MountedLast(defs: seq<Definition>, i: nat) {
    i < |defs| && forall j | i < j < |defs| :: defs[j].name != defs[i].name
  }

  /**
   * Name by name: a migration source is on record for its declarer, any other mounted name for the package
   * that mounts it, and every other name as it was before, or not at all.
   */
  ghost predicate Records(defs: seq<Definition>, before: Ledger, after: Ledger) {
    && (forall d, m | d in defs && m in d.migrations :: m.fromCube in after && after[m.fromCube] == d.plugin)
    && (forall i: nat | MountedLast(defs, i) && !SourceName(defs, defs[i].name) ::
          defs[i].name in after && after[defs[i].name] == defs[i].plugin)
    && (forall name | !SourceName(defs, name) && (forall d | d in defs :: d.name != name) ::
          (name in after <==> name in before) && (name in after ==> after[name] == before[name]))
  }

  lemma {:induction false} ClaimIn(defs: seq<Definition>, c: Claim)
    ensures c in Claims(defs) <==> exists d :: d in defs && c.declarer == d.name && c.plugin == d.plugin && c.migration in d.migrations
  {
    if defs != [] {
      var init, last := defs[..|defs| - 1], defs[|defs| - 1];
      ClaimIn(init, c);
      assert defs == init + [last];
      assert c in ClaimsOf(last) <==> c.declarer == last.name && c.plugin == last.plugin && c.migration in last.migrations by {
        if c.declarer == last.name && c.plugin == last.plugin && c.migration in last.migrations {
          var j :| 0 <= j < |last.migrations| && last.migrations[j] == c.migration;
          assert ClaimsOf(last)[j] == c;
        }
      }
    }
  }

  lemma SourceEntryNames(defs: seq<Definition>, name: string)
    ensures (exists e :: e in SourceEntries(Claims(defs)) && e.name == name) <==> SourceName(defs, name)
  {
    var es := SourceEntries(Claims(defs));
    if e :| e in es && e.name == name {
      var i :| 0 <= i < |es| && es[i] == e;
      ClaimIn(defs, Claims(defs)[i]);
    }
    if d, m :| d in defs && m in d.migrations && m.fromCube == name {
      ClaimIn(defs, Claim(d.name, d.plugin, m));
      var i :| 0 <= i < |es| && Claims(defs)[i] == Claim(d.name, d.plugin, m);
      assert es[i] in es && es[i].name == name;
    }
  }

  /** The last entry of a name stands. */
  lemma {:induction false} LastStands(ledger: Ledger, es: seq<Entry>, i: nat)
    requires i < |es| && forall j | i < j < |es| :: es[j].name != es[i].name
    ensures es[i].name in Written(ledger, es) && Written(ledger, es)[es[i].name] == es[i].plugin
    decreases |es|
  {
    if i < |es| - 1 {
      LastStands(ledger, es[..|es| - 1], i);
    }
  }

  /** The ledger of an accepted boot records what it mounted and what it moved, and keeps the rest. */
  lemma BootRecords(defs: seq<Definition>, ledger: Ledger, legacy: string)
    requires Accepts(defs, ledger, legacy)
    ensures Records(defs, ledger, NextLedger(defs, ledger))
  {
    hide Written, Authorized, Mounted, Claims, SourceName;
    var next, cubes, sources := NextLedger(defs, ledger), CubeEntries(defs), SourceEntries(Claims(defs));
    WrittenTwice(ledger, cubes, sources);
    AcceptedIsSettled(defs, ledger, legacy);
    forall d, m | d in defs && m in d.migrations ensures m.fromCube in next && next[m.fromCube] == d.plugin {
      ClaimIn(defs, Claim(d.name, d.plugin, m));
    }
    forall i: nat | MountedLast(defs, i) && !SourceName(defs, defs[i].name)
      ensures defs[i].name in next && next[defs[i].name] == defs[i].plugin
    {
      LastStands(ledger, cubes, i);
      SourceEntryNames(defs, defs[i].name);
      WrittenNames(Written(ledger, cubes), sources, defs[i].name);
      NotWritten(Written(ledger, cubes), sources, defs[i].name);
    }
    forall name | !SourceName(defs, name) && (forall d | d in defs :: d.name != name)
      ensures (name in next <==> name in ledger) && (name in next ==> next[name] == ledger[name])
    {
      SourceEntryNames(defs, name);
      assert forall e: Entry | e in cubes + sources :: e.name != name;
      NotWritten(ledger, cubes + sources, name);
    }
  }

  lemma NotWritten(ledger: Ledger, es: seq<Entry>, name: string)
    requires forall e | e in es :: e.name != name
    ensures name in Written(ledger, es) <==> name in ledger
    ensures name in ledger ==> Written(ledger, es)[name] == ledger[name]
  {
    WrittenNames(ledger, es, name);
  }

  /** On a settled ledger the operator's list no longer matters. */
  lemma SettledIsAccepted(defs: seq<Definition>, ledger: Ledger, legacy: string)
    requires Placed(defs) && Settled(defs, ledger)
    ensures Accepts(defs, ledger, legacy)
  {
    hide Written, Authorized, Mounted, Claims;
  }

  /** Without the operator's list, a boot accepts exactly what is placed and settled. */
  lemma AcceptedAlone(defs: seq<Definition>, ledger: Ledger)
    ensures Accepts(defs, ledger, "") <==> Placed(defs) && Settled(defs, ledger)
  {
    assert Authorized("") == map[] by {
      assert Split("", ',') == [""];
      assert TrimAll([""]) == [""];
      assert Filter([""], s => s != "") == [];
    }
    hide Written, Mounted, Claims, Authorized;
    if Accepts(defs, ledger, "") {
      forall c | c in Claims(defs)
        ensures c.migration.fromCube in ledger && ledger[c.migration.fromCube] == c.plugin
      {
        assert Owned(WorldOf(defs, ledger, ""), c);
      }
    }
    if Placed(defs) && Settled(defs, ledger) {
      SettledIsAccepted(defs, ledger, "");
    }
  }

  /** Booting the same definitions again writes the same ledger. */
  lemma SameLedgerAgain(defs: seq<Definition>, ledger: Ledger)
    ensures NextLedger(defs, NextLedger(defs, ledger)) == NextLedger(defs, ledger)
  {
    WriteAgain(ledger, CubeEntries(defs) + SourceEntries(Claims(defs)));
  }

  lemma WriteAgain(ledger: Ledger, es: seq<Entry>)
    ensures Written(Written(ledger, es), es) == Written(ledger, es)
  {
    var once, twice := Written(ledger, es), Written(Written(ledger, es), es);
    forall name ensures name in twice <==> name in once {
      WrittenNames(once, es, name);
      WrittenNames(ledger, es, name);
    }
    forall name | name in once ensures twice[name] == once[name] {
      WrittenNames(ledger, es, name);
      OverWritten(ledger, once, es, name);
    }
  }

  lemma {:induction false} OverWritten(a: Ledger, b: Ledger, es: seq<Entry>, name: string)
    requires name in Written(a, es) && name in Written(b, es)
    requires (forall e | e in es :: e.name != name) ==> name in a && name in b && a[name] == b[name]
    ensures Written(a, es)[name] == Written(b, es)[name]
  {
    if es != [] {
      var init, last := es[..|es| - 1], es[|es| - 1];
      assert es == init + [last] && last in es;
      if last.name != name {
        OverWritten(a, b, init, name);
      }
    }
  }

  // --- runs of boots -----------------------------------------------------------------------------

  datatype BootInput = BootInput(defs: seq<Definition>, legacy: string)

  /** The ledger after a run of boots that all go through; None when one of them is refused. */
  function LedgerAfter(ledger: Ledger, boots: seq<BootInput>): Option<Ledger> {
    if boots == [] then Some(ledger)
    else
      var init, last := LedgerAfter(ledger, boots[..|boots| - 1]), boots[|boots| - 1];
      if init.Some? && Passing(last, init.value) then Some(NextLedger(last.defs, init.value)) else None
  }

  predicate Passing(b: BootInput, ledger: Ledger) {
    Readable(ledger) && forall c | c in Claims(b.defs) :: Owned(WorldOf(b.defs, ledger, b.legacy), c)
  }

  /** No boot of the run mounts, under another package, a cube named like a source of these definitions. */
  ghost predicate NoTakeover(defs: seq<Definition>, boots: seq<BootInput>) {
    forall b, c | b in boots && c in Claims(defs) && c.migration.fromCube in Mounted(b.defs) ::
      Mounted(b.defs)[c.migration.fromCube] == c.plugin
  }

  /** Any accepted boot that does not take a source over keeps it on record for its package. */
  lemma BootKeepsSettled(defs: seq<Definition>, b: BootInput, ledger: Ledger)
    requires Settled(defs, ledger) && Passing(b, ledger) && NoTakeover(defs, [b])
    ensures Settled(defs, NextLedger(b.defs, ledger))
  {
    hide Written, Authorized, Mounted, Claims, Readable;
    var es := SourceEntries(Claims(b.defs));
    WrittenTwice(ledger, CubeEntries(b.defs), es);
    forall c | c in Claims(defs)
      ensures c.migration.fromCube in NextLedger(b.defs, ledger) && NextLedger(b.defs, ledger)[c.migration.fromCube] == c.plugin
    {
      var source := c.migration.fromCube;
      assert b in [b];
      MountKeeps(ledger, b.defs, source, c.plugin);
      forall e | e in es && e.name == source ensures e.plugin == c.plugin {
        var j :| 0 <= j < |es| && es[j] == e;
        assert Owned(WorldOf(b.defs, ledger, b.legacy), Claims(b.defs)[j]);
      }
      WrittenAgrees(Written(ledger, CubeEntries(b.defs)), es, source, c.plugin);
    }
  }

  /** And only such a boot: one that mounts a source's name under another package takes the record over. */
  lemma BootSettledExactly(defs: seq<Definition>, b: BootInput, ledger: Ledger)
    requires Settled(defs, ledger) && Passing(b, ledger)
    ensures Settled(defs, NextLedger(b.defs, ledger)) <==> NoTakeover(defs, [b])
  {
    hide Written, Authorized, Mounted, Claims, Readable, NextLedger;
    if NoTakeover(defs, [b]) {
      BootKeepsSettled(defs, b, ledger);
    } else {
      var c :| c in Claims(defs) && c.migration.fromCube in Mounted(b.defs)
               && Mounted(b.defs)[c.migration.fromCube] != c.plugin;
      TakenOver(b, ledger, c.migration.fromCube, c.plugin);
    }
  }

  lemma TakenOver(b: BootInput, ledger: Ledger, source: string, owner: Owner)
    requires Passing(b, ledger) && source in ledger && ledger[source] == owner
    requires source in Mounted(b.defs) && Mounted(b.defs)[source] != owner
    ensures source in NextLedger(b.defs, ledger) && NextLedger(b.defs, ledger)[source] == Mounted(b.defs)[source]
  {
    var cubes, es := CubeEntries(b.defs), SourceEntries(Claims(b.defs));
    var base := Written(ledger, cubes);
    WrittenTwice(ledger, cubes, es);
    WrittenNames(map[], cubes, source);
    WrittenNames(ledger, cubes, source);
    assert Entry(source, Mounted(b.defs)[source]) in cubes;
    OverWritten(ledger, map[], cubes, source);
    hide Written, Authorized, Mounted, Claims, Readable;
    forall e | e in es ensures e.name != source {
      var j :| 0 <= j < |es| && es[j] == e;
      var claim := Claims(b.defs)[j];
      assert Owned(WorldOf(b.defs, ledger, b.legacy), claim);
    }
    WrittenNames(base, es, source);
  }

  /** After a takeover the definitions are refused until the operator or another record speaks for them. */
  lemma TakeoverRefuses(defs: seq<Definition>, b: BootInput, ledger: Ledger)
    requires Settled(defs, ledger) && Passing(b, ledger) && !NoTakeover(defs, [b])
    ensures !Accepts(defs, NextLedger(b.defs, ledger), "")
  {
    hide Settled, Passing, NextLedger, Accepts, NoTakeover, Placed;
    BootSettledExactly(defs, b, ledger);
    AcceptedAlone(defs, NextLedger(b.defs, ledger));
  }

  const MOVED := [Definition("b", Some("p"), [Declared("a", "b", Some(Some("p")))])]
  const INTRUDER := [Definition("a", Some("q"), [])]

  lemma MountedMoved()
    ensures Mounted(MOVED) == map["b" := Some("p")]
    ensures Claims(MOVED) == [Claim("b", Some("p"), MOVED[0].migrations[0])]
  {
    assert MOVED[..0] == [];
    assert CubeEntries(MOVED) == [Entry("b", Some("p"))] && CubeEntries(MOVED)[..0] == [];
    assert Claims(MOVED) == ClaimsOf(MOVED[0]);
  }

  lemma MountedIntruder()
    ensures Mounted(INTRUDER) == map["a" := Some("q")]
    ensures Claims(INTRUDER) == []
  {
    assert INTRUDER[..0] == [];
    assert CubeEntries(INTRUDER) == [Entry("a", Some("q"))] && CubeEntries(INTRUDER)[..0] == [];
    assert Claims(INTRUDER) == ClaimsOf(INTRUDER[0]);
  }

  lemma ReadableMoved()
    ensures Readable(map["a" := Some("p")])
  {
    SplitPlain("a", '/');
  }

  /** A takeover: package q mounts a cube under the name package p migrated from. */
  lemma TakeoverHappens()
    ensures var ledger: Ledger := map["a" := Some("p")];
      && Accepts(MOVED, ledger, "") && Passing(BootInput(INTRUDER, ""), ledger)
      && !Accepts(MOVED, NextLedger(INTRUDER, ledger), "")
  {
    hide Written, Authorized, Mounted, Claims, Readable, NextLedger;
    var ledger: Ledger := map["a" := Some("p")];
    var boot := BootInput(INTRUDER, "");
    MountedMoved();
    MountedIntruder();
    ReadableMoved();
    assert Placed(MOVED) && Settled(MOVED, ledger);
    SettledIsAccepted(MOVED, ledger, "");
    assert Claims(MOVED)[0] in Claims(MOVED) && boot in [boot];
    assert !NoTakeover(MOVED, [boot]);
    TakeoverRefuses(MOVED, boot, ledger);
  }

  /** Recording the mounted cubes leaves a name alone unless it is mounted, and then agrees with the mount. */
  lemma MountKeeps(ledger: Ledger, defs: seq<Definition>, name: string, owner: Owner)
    requires name in ledger && ledger[name] == owner
    requires name in Mounted(defs) ==> Mounted(defs)[name] == owner
    ensures name in Written(ledger, CubeEntries(defs)) && Written(ledger, CubeEntries(defs))[name] == owner
  {
    var es := CubeEntries(defs);
    WrittenNames(map[], es, name);
    if name in Mounted(defs) {
      WrittenNames(ledger, es, name);
      assert Entry(name, Mounted(defs)[name]) in es;
      OverWritten(ledger, map[], es, name);
    } else {
      WrittenAgrees(ledger, es, name, owner);
    }
  }

  /**
   * Once a boot has accepted some definitions, they are accepted after every later run of boots in
   * which no other package mounts a cube under one of their sources, with no operator list at all.
   */
  lemma {:induction false} AcceptedForGood(defs: seq<Definition>, ledger: Ledger, legacy: string, boots: seq<BootInput>)
    requires Accepts(defs, ledger, legacy) && NoTakeover(defs, boots)
    requires LedgerAfter(NextLedger(defs, ledger), boots).Some?
    ensures Accepts(defs, LedgerAfter(NextLedger(defs, ledger), boots).value, "")
    ensures Settled(defs, LedgerAfter(NextLedger(defs, ledger), boots).value)
  {
    hide Passing, NextLedger, Settled, Accepts, Claims, Mounted;
    AcceptedIsSettled(defs, ledger, legacy);
    if boots == [] {
      SettledIsAccepted(defs, NextLedger(defs, ledger), "");
    } else {
      var init, last := boots[..|boots| - 1], boots[|boots| - 1];
      assert boots == init + [last];
      assert NoTakeover(defs, init) && NoTakeover(defs, [last]) by {
        assert last in boots && forall b | b in init :: b in boots;
      }
      AcceptedForGood(defs, ledger, legacy, init);
      var before := LedgerAfter(NextLedger(defs, ledger), init).value;
      BootKeepsSettled(defs, last, before);
      SettledIsAccepted(defs, NextLedger(last.defs, before), "");
    }
  }

  // --- can the next boot read it? ----------------------------------------------------------------

  /**
   * The next boot can read what this one wrote exactly when every migration source is spelled like a
   * cube identity, given that the mounted cubes and their packages are.
   */
  lemma ReadableNext(defs: seq<Definition>, ledger: Ledger, legacy: string)
    requires Readable(ledger) && Accepts(defs, ledger, legacy)
    requires forall d | d in defs :: ReadableEntry(d.name, d.plugin)
    ensures Readable(NextLedger(defs, ledger)) <==> forall c | c in Claims(defs) :: CubeIdentity(c.migration.fromCube)
  {
    hide Written, Authorized, Claims, CubeIdentity;
    var cs, es := Claims(defs), CubeEntries(defs) + SourceEntries(Claims(defs));
    var next := NextLedger(defs, ledger);
    AcceptedIsSettled(defs, ledger, legacy);
    if forall c | c in cs :: CubeIdentity(c.migration.fromCube) {
      forall name | name in next ensures ReadableEntry(name, next[name]) {
        WrittenNames(ledger, es, name);
        if Entry(name, next[name]) in es {
          var i :| 0 <= i < |es| && es[i] == Entry(name, next[name]);
          if i < |defs| {
            assert es[i] == CubeEntries(defs)[i] && defs[i] in defs;
          } else {
            assert es[i] == SourceEntries(cs)[i - |defs|];
            DeclarerReadable(defs, cs[i - |defs|]);
          }
        }
      }
    }
  }

  lemma DeclarerReadable(defs: seq<Definition>, c: Claim)
    requires forall d | d in defs :: ReadableEntry(d.name, d.plugin)
    requires c.migration.toCube in Mounted(defs) && Mounted(defs)[c.migration.toCube] == c.plugin
    ensures c.plugin.Some? ==> Slug(c.plugin.value)
  {
    hide CubeIdentity, Slug;
    WrittenNames(map[], CubeEntries(defs), c.migration.toCube);
    var i :| 0 <= i < |defs| && CubeEntries(defs)[i] == Entry(c.migration.toCube, c.plugin);
    assert defs[i] in defs;
  }

  const NOTES := [Definition("b", Some("p"), [Declared("A", "b", Some(Some("p")))])]

  lemma GrantedNotes()
    ensures Authorized("A:p") == map["A" := Some(Some("p"))]
  {
    SplitPlain("A:p", ',');
    assert TrimStart("A:p") == "A:p" && TrimEnd("A:p") == "A:p";
    assert TrimAll(["A:p"]) == ["A:p"];
    FilterAll(["A:p"], s => s != "");
    SplitPlain("p", ':');
    SplitHead("A", "p", ':');
    assert "A" + ([':'] + "p") == "A:p";
    assert Grant("A:p") == ("A", Some(Some("p")));
    assert Granted(["A:p"]) == Granted(["A:p"][..0])["A" := Some(Some("p"))];
    assert ["A:p"][..0] == [];
  }

  lemma MountedNotes()
    ensures Mounted(NOTES) == map["b" := Some("p")]
    ensures Claims(NOTES) == [Claim("b", Some("p"), NOTES[0].migrations[0])]
  {
    assert NOTES[..0] == [];
    assert CubeEntries(NOTES) == [Entry("b", Some("p"))];
    assert CubeEntries(NOTES)[..0] == [];
    assert Claims(NOTES) == ClaimsOf(NOTES[0]);
  }

  /** An accepted boot whose ledger stops the next one: the operator granted a source with a capital. */
  lemma UnreadableNext()
    ensures Accepts(NOTES, map[], "A:p") && !Readable(NextLedger(NOTES, map[]))
  {
    GrantedNotes();
    MountedNotes();
    hide Authorized, Mounted, Claims, Written, CubeIdentity;
    assert Accepts(NOTES, map[], "A:p");
    AcceptedIsSettled(NOTES, map[], "A:p");
    assert Claims(NOTES)[0] in Claims(NOTES) && "A" in NextLedger(NOTES, map[]);
    CapitalRefused();
  }

  lemma CapitalRefused()
    ensures !CubeIdentity("A")
  {
    SplitPlain("A", '/');
    assert "A" in Split("A", '/') && !Slug("A");
  }
}
