/**
 * Installing a package: from a shelf of the store to its place on disk, and from a directory an
 * administrator points at by way of a new shelf. Every step that touches the disk may fail.
 */
module Installer {
  import opened Wrappers
  import opened Strings
  import opened Trees
  import opened Fingerprints

  datatype Kind = Cube | Plugin
  datatype Package = Package(name: string, kind: Kind, cubes: set<string>)

  /** Where a package of a kind goes: below the core cubes or below the plugins. */
  datatype Place = Place(kind: Kind, name: string)

  /** What an administrator may point at. */
  datatype SourceDir = NotAbsolute | Missing | LinkItself | NotDirectory | Dir(path: string, tree: Tree)
  {
    /** A package is called what its directory is called. */
    function Name(): string
      requires Dir?
    {
      var parts := Split(path, '/');
      parts[|parts| - 1]
    }
  }

  datatype InstallError =
    | BadSource | NotPlain | BadPackage | AlreadyInstalled | DifferentContent | ContractBroken
    | PlaceTaken | CubesTaken | DiskFailed | StagingLeft

  /** Reading a manifest, the source rules for plugins, the contract check, and writing and reading a shelf's record. */
  datatype Rules = Rules(
    describe: (string, Tree) -> Option<Package>,
    sourceRules: Tree -> bool,
    contract: (Tree, Package) -> bool,
    encode: Provenance -> Bytes,
    decode: Bytes -> Option<Provenance>,
    digest: Digest)
  {
    /** What a shelf records of its source: where it is, and what it held. */
    function Record(source: SourceDir): Bytes
      requires source.Dir?
    {
      encode(Provenance(source.path, FingerprintOf(digest, SourceFiles(source.tree))))
    }

    ghost predicate ReadsBack() {
      forall p :: decode(encode(p)) == Some(p)
    }
  }

  /** Which steps go wrong: a directory made, a copy, a write, a rename, a removal. */
  datatype Luck = Luck(
    makeStore: bool, makeStaging: bool, stagingCopy: nat -> bool, writeRecord: bool, publish: bool,
    dropStaging: bool, makeParent: bool, installCopy: nat -> bool, dropPlace: bool, dropShelf: bool)
  {
    ghost predicate Fair() {
      && !makeStore && !makeStaging && !writeRecord && !publish && !dropStaging && !makeParent
      && (forall k :: !stagingCopy(k)) && (forall k :: !installCopy(k))
    }
  }

  type Places = map<Place, Tree>

  function PlaceOf(pkg: Package): Place {
    Place(pkg.kind, pkg.name)
  }

  /** Cubes of core, and the directories in every plugin's `cubes`. */
  function CubesOnDisk(places: Places): set<string> {
    (set p | p in places && p.kind.Cube? :: p.name)
    + (set p, q | p in places && p.kind.Plugin? && q in places[p] && |q| == 2 && q[0] == "cubes" && places[p][q].Directory? :: q[1])
  }

  /** A plugin brings a cube when there is a directory for it below its `cubes`. */
  predicate BringsCube(plugin: Tree, cube: string) {
    ["cubes", cube] in plugin && plugin[["cubes", cube]].Directory?
  }

  /** A cube of that name is on disk: a core cube, or one some plugin brings. */
  ghost predicate OnDisk(places: Places, cube: string) {
    Place(Cube, cube) in places || exists p :: p in places && p.kind.Plugin? && BringsCube(places[p], cube)
  }

  lemma CubesOnDiskExactly(places: Places, cube: string)
    ensures cube in CubesOnDisk(places) <==> OnDisk(places, cube)
  {
    if p, q :| p in places && p.kind.Plugin? && q in places[p] && |q| == 2 && q[0] == "cubes" && places[p][q].Directory? && q[1] == cube {
      assert q == ["cubes", cube];
      assert BringsCube(places[p], cube);
    }
    if p :| p in places && p.kind.Cube? && p.name == cube { assert p == Place(Cube, cube); }
    if p :| p in places && p.kind.Plugin? && BringsCube(places[p], cube) {
      var q := ["cubes", cube];
      assert q in places[p] && |q| == 2 && q[0] == "cubes" && q[1] == cube;
    }
    if Place(Cube, cube) in places { assert Place(Cube, cube).kind.Cube?; }
  }

  /** A package brings some cube that is on disk already. */
  ghost predicate Clashes(pkg: Package, places: Places) {
    exists c :: c in pkg.cubes && OnDisk(places, c)
  }

  lemma NoClash(pkg: Package, places: Places)
    ensures pkg.cubes * CubesOnDisk(places) == {} <==> !Clashes(pkg, places)
  {
    hide CubesOnDisk, OnDisk;
    forall c ensures c in CubesOnDisk(places) <==> OnDisk(places, c) { CubesOnDiskExactly(places, c); }
    if pkg.cubes * CubesOnDisk(places) != {} {
      var c :| c in pkg.cubes * CubesOnDisk(places);
    }
    if c :| c in pkg.cubes && OnDisk(places, c) {
      assert c in pkg.cubes * CubesOnDisk(places);
    }
  }

  /** Only a clash of cubes stands in the way: the shelf is a package and its place is free. */
  ghost predicate OnlyClashes(rules: Rules, name: string, shelf: Tree, places: Places) {
    match rules.describe(name, shelf)
    case None => false
    case Some(pkg) => Place(pkg.kind, pkg.name) !in places && Clashes(pkg, places)
  }

  /** A shelf can be installed: it is a package, its place is free, its cubes are new, it can be copied. */
  predicate Installable(rules: Rules, name: string, shelf: Tree, places: Places) {
    && rules.describe(name, shelf).Some?
    && PlaceOf(rules.describe(name, shelf).value) !in places
    && rules.describe(name, shelf).value.cubes * CubesOnDisk(places) == {}
    && Copyable(shelf, InstallSkip())
  }

  function PlacesAfter(rules: Rules, name: string, shelf: Tree, places: Places): Places
    requires Installable(rules, name, shelf, places)
  {
    places[PlaceOf(rules.describe(name, shelf).value) := Copied(shelf, InstallSkip())]
  }

  predicate Plain(t: Tree) {
    forall p | p in t && Reached(t, SourceSkip(), p) :: t[p].File? || t[p].Directory?
  }

  /** A shelf is what a source would be staged as: same fingerprint, read the shelf's way and the source's way. */
  predicate SameContent(rules: Rules, shelf: Tree, source: Tree) {
    Readable(shelf, ShelfSkip())
    && FingerprintOf(rules.digest, ShelfFiles(shelf)) == FingerprintOf(rules.digest, SourceFiles(source))
  }

  lemma SameContentMeans(rules: Rules, shelf: Tree, source: Tree)
    ensures SameContent(rules, shelf, source) <==>
      Readable(shelf, ShelfSkip()) && FingerprintOf(rules.digest, ShelfFiles(shelf)) == FingerprintOf(rules.digest, SourceFiles(source))
  {
  }

  /** The source contract, asked only when no cube of the package is on disk already. */
  predicate Gate(rules: Rules, pkg: Package, source: Tree, places: Places) {
    pkg.cubes * CubesOnDisk(places) != {} || ((pkg.kind.Plugin? ==> rules.sourceRules(source)) && rules.contract(source, pkg))
  }

  class Store {
    var shelves: map<string, Tree>
    var places: Places
    /** Staging directories that could not be removed. */
    var litter: seq<Tree>
    const rules: Rules

    constructor (rules: Rules, shelves: map<string, Tree>, places: Places)
      ensures this.rules == rules && this.shelves == shelves && this.places == places && litter == []
    {
      this.rules, this.shelves, this.places, litter := rules, shelves, places, [];
    }

    ghost predicate Valid()
      reads this
    {
      forall name | name in shelves :: Sound(shelves[name])
    }

    /** From a shelf to its place. A failed copy is removed again; an occupied place is never touched. */
    method InstallExisting(name: string, luck: Luck) returns (r: Result<Package, InstallError>)
      requires Valid()
      modifies this`places
      ensures r.Ok? ==> name in shelves && Installable(rules, name, shelves[name], old(places))
                        && rules.describe(name, shelves[name]) == Some(r.value)
                        && places == PlacesAfter(rules, name, shelves[name], old(places))
      ensures r.Err? && !luck.dropPlace ==> places == old(places)
      ensures r.Err? ==> forall p | p in old(places) :: p in places && places[p] == old(places)[p]
      ensures name in shelves && Installable(rules, name, shelves[name], old(places)) && luck.Fair() ==> r.Ok?
      ensures r.Err? ==> r.error != StagingLeft
      ensures r.Ok? ==> Place(r.value.kind, r.value.name) !in old(places) && !Clashes(r.value, old(places))
      ensures r.Ok? ==> places == old(places)[Place(r.value.kind, r.value.name) := Copied(shelves[name], InstallSkip())]
      ensures r == Err(CubesTaken) <==> name in shelves && OnlyClashes(rules, name, shelves[name], old(places))
    {
      hide Copied, Copyable, Sound, CubesOnDisk, Clashes;
      if name !in shelves {
        return Err(BadPackage);
      }
      var described := rules.describe(name, shelves[name]);
      if described.None? {
        return Err(BadPackage);
      }
      var to := PlaceOf(described.value);
      if to in places {
        return Err(PlaceTaken);
      }
      NoClash(described.value, places);
      if described.value.cubes * CubesOnDisk(places) != {} {
        return Err(CubesTaken);
      }
      if luck.makeParent {
        return Err(DiskFailed);
      }
      var ok, copy := CopyTree(shelves[name], InstallSkip(), luck.installCopy);
      places := places[to := copy];
      if !ok {
        if !luck.dropPlace {
          places := places - {to};
        }
        return Err(DiskFailed);
      }
      r := Ok(described.value);
    }

    /** Stage and publish: the copy and its record are made aside and renamed into place. */
    method Publish(name: string, source: Tree, provenance: Provenance, luck: Luck) returns (r: Result<(), InstallError>)
      requires Valid() && Sound(source) && name !in shelves
      modifies this`shelves, this`litter
      ensures Valid()
      ensures r.Ok? ==> Stageable(source) && shelves == old(shelves)[name := Shelved(source, rules.encode(provenance))]
      ensures r.Ok? ==> litter == old(litter)
      ensures r == Err(StagingLeft) ==> Stageable(source) && luck.dropStaging
                                        && shelves == old(shelves)[name := Shelved(source, rules.encode(provenance))]
      ensures r.Err? && r.error != StagingLeft ==> shelves == old(shelves)
      ensures !luck.dropStaging ==> litter == old(litter)
      ensures r.Err? ==> r.error in {DiskFailed, StagingLeft}
      ensures Stageable(source) && luck.Fair() ==> r.Ok?
    {
      hide Copied, Copyable, Sound;
      if luck.makeStore || luck.makeStaging {
        return Err(DiskFailed);
      }
      var ok, staged := CopyTree(source, StagingSkip(), luck.stagingCopy);
      if ok {
        if ([PROVENANCE] in staged && staged[[PROVENANCE]].Directory?) || luck.writeRecord || luck.publish {
          ok := false;
          StagedRecord(source);
        } else {
          StagedRecord(source);
          staged := staged[[PROVENANCE] := File(rules.encode(provenance))];
          SoundRecord(source, rules.encode(provenance));
          shelves, staged := shelves[name := staged], map[];
        }
      }
      if luck.dropStaging {
        litter := litter + [staged];
      }
      r := if !ok then Err(DiskFailed) else if luck.dropStaging then Err(StagingLeft) else Ok(());
    }

    /** The last two steps: publish the shelf, install from it, and take it back when that fails. */
    method PublishAndInstall(source: SourceDir, provenance: Provenance, luck: Luck) returns (r: Result<Package, InstallError>)
      requires Valid() && source.Dir? && Sound(source.tree) && source.Name() !in shelves
      requires rules.encode(provenance) == rules.Record(source)
      modifies this
      ensures Valid()
      ensures r.Ok? ==> var shelf := Shelved(source.tree, rules.Record(source));
        && Stageable(source.tree) && Installable(rules, source.Name(), shelf, old(places))
        && rules.describe(source.Name(), shelf) == Some(r.value)
        && shelves == old(shelves)[source.Name() := shelf]
        && places == PlacesAfter(rules, source.Name(), shelf, old(places)) && litter == old(litter)
      ensures r.Ok? ==> Place(r.value.kind, r.value.name) !in old(places) && !Clashes(r.value, old(places))
      ensures var shelf := Shelved(source.tree, rules.Record(source));
        Stageable(source.tree) && Installable(rules, source.Name(), shelf, old(places)) && luck.Fair() ==> r.Ok?
      ensures r.Err? && !luck.dropStaging && !luck.dropPlace && !luck.dropShelf ==>
        shelves == old(shelves) && places == old(places) && litter == old(litter)
      ensures r.Err? ==> forall name | name in old(shelves) :: name in shelves && shelves[name] == old(shelves)[name]
      ensures r.Err? ==> forall p | p in old(places) :: p in places && places[p] == old(places)[p]
      ensures r == Err(StagingLeft) ==> places == old(places)
                                        && shelves == old(shelves)[source.Name() := Shelved(source.tree, rules.Record(source))]
      ensures luck.Fair() ==> (r == Err(CubesTaken) <==>
        Stageable(source.tree) && OnlyClashes(rules, source.Name(), Shelved(source.tree, rules.Record(source)), old(places)))
    {
      hide Copied, Copyable, Sound, FilesOf, Shelved, CubesOnDisk, Clashes, OnlyClashes, Installable, Stageable, PlacesAfter;
      var name := source.Name();
      var published := Publish(name, source.tree, provenance, luck);
      if published.Err? {
        return Err(published.error);
      }
      r := InstallExisting(name, luck);
      if r.Err? && !luck.dropShelf {
        shelves := shelves - {name};
      }
    }

    /**
     * The whole operation. All or nothing whenever the removals it makes succeed; on success the new
     * shelf is the kept source with its record and the place is what installing that shelf gives; a
     * shelf that already holds the source's content is used as it is.
     */
    method StageAndInstall(source: SourceDir, luck: Luck) returns (r: Result<(Package, bool), InstallError>)
      requires Valid() && (source.Dir? ==> Sound(source.tree))
      modifies this
      ensures Valid()
      ensures r.Ok? ==> Admissible(rules, source, old(shelves), old(places))
      ensures r.Ok? ==> var after := Outcome(rules, source, old(shelves), old(places));
        shelves == after.shelves && places == after.places && r.value.1 == (source.Name() !in old(shelves)) && litter == old(litter)
      ensures Admissible(rules, source, old(shelves), old(places)) && luck.Fair() ==> r.Ok?
      ensures r.Err? && !luck.dropStaging && !luck.dropPlace && !luck.dropShelf ==>
        shelves == old(shelves) && places == old(places) && litter == old(litter)
      ensures r.Err? ==> forall name | name in old(shelves) :: name in shelves && shelves[name] == old(shelves)[name]
      ensures r.Err? ==> forall p | p in old(places) :: p in places && places[p] == old(places)[p]
      ensures r == Err(StagingLeft) ==> source.Dir? && places == old(places)
                                        && shelves == old(shelves)[source.Name() := Shelved(source.tree, rules.Record(source))]
      ensures r.Ok? ==> source.Name() in shelves && rules.describe(source.Name(), shelves[source.Name()]) == Some(r.value.0)
      ensures r.Ok? ==> Place(r.value.0.kind, r.value.0.name) !in old(places) && !Clashes(r.value.0, old(places))
      ensures luck.Fair() ==> (r == Err(CubesTaken) <==> ClashingSource(rules, source, old(shelves), old(places)))
    {
      hide Copied, Copyable, Sound, Reached, FingerprintOf, FilesOf, Readable, Shelved, TopSkip;
      hide CubesOnDisk, Clashes, OnlyClashes, SameContent, Installable, Plain, Stageable, PlacesAfter;
      if !source.Dir? {
        return Err(BadSource);
      }
      var name, tree := source.Name(), source.tree;
      var plain := ValidatePackageSourceTree(tree);
      if !plain {
        return Err(NotPlain);
      }
      var described := rules.describe(name, tree);
      if described.None? {
        return Err(BadPackage);
      }
      var pkg := described.value;
      if PlaceOf(pkg) in places {
        return Err(AlreadyInstalled);
      }
      var fingerprint := PackageSourceFingerprint(rules.digest, tree, {}, true);
      PlainIsReadable(tree);
      if fingerprint.None? {
        return Err(DiskFailed);
      }
      if name in shelves {
        var shelved := PackageSourceFingerprint(rules.digest, shelves[name], {PROVENANCE}, false);
        SameContentMeans(rules, shelves[name], tree);
        if shelved.None? {
          return Err(DiskFailed);
        }
        if shelved.value == fingerprint.value {
          var installed := InstallExisting(name, luck);
          if installed.Err? {
            return Err(installed.error);
          }
          return Ok((installed.value, false));
        }
        return Err(DifferentContent);
      }
      if pkg.cubes * CubesOnDisk(places) == {} {
        if pkg.kind.Plugin? && !rules.sourceRules(tree) {
          return Err(ContractBroken);
        }
        if !rules.contract(tree, pkg) {
          return Err(ContractBroken);
        }
      }
      var installed := PublishAndInstall(source, Provenance(source.path, fingerprint.value), luck);
      if installed.Err? {
        return Err(installed.error);
      }
      r := Ok((installed.value, true));
    }
  }

  /** The name of a package is the last part of its path. */
  lemma NamedLikeItsDirectory(source: SourceDir, above: string, name: string)
    requires source.Dir? && source.path == above + "/" + name && '/' !in name
    ensures source.Name() == name
  {
    SplitLast(above, name, '/');
  }

  // --- what the operation is for -----------------------------------------------------------------

  /** The kept source can be copied, and nothing of it stands where the record goes. */
  predicate Stageable(source: Tree) {
    Copyable(source, StagingSkip()) && !([PROVENANCE] in source && source[[PROVENANCE]].Directory?)
  }

  /** What must hold for an installation from a directory to go through when no disk step fails. */
  predicate Admissible(rules: Rules, source: SourceDir, shelves: map<string, Tree>, places: Places) {
    && source.Dir? && Plain(source.tree)
    && rules.describe(source.Name(), source.tree).Some?
    && PlaceOf(rules.describe(source.Name(), source.tree).value) !in places
    && (if source.Name() in shelves then
          SameContent(rules, shelves[source.Name()], source.tree) && Installable(rules, source.Name(), shelves[source.Name()], places)
        else
          && Gate(rules, rules.describe(source.Name(), source.tree).value, source.tree, places)
          && Stageable(source.tree)
          && Installable(rules, source.Name(), Shelved(source.tree, rules.Record(source)), places))
  }

  /**
   * Nothing but a clash of cubes refuses the source: it is a package that is not installed, its shelf holds
   * the same content or it can be staged, and what would be installed brings a cube that is on disk.
   */
  ghost predicate ClashingSource(rules: Rules, source: SourceDir, shelves: map<string, Tree>, places: Places) {
    && source.Dir? && Plain(source.tree)
    && rules.describe(source.Name(), source.tree).Some?
    && PlaceOf(rules.describe(source.Name(), source.tree).value) !in places
    && (if source.Name() in shelves then
          SameContent(rules, shelves[source.Name()], source.tree) && OnlyClashes(rules, source.Name(), shelves[source.Name()], places)
        else
          && Gate(rules, rules.describe(source.Name(), source.tree).value, source.tree, places)
          && Stageable(source.tree)
          && OnlyClashes(rules, source.Name(), Shelved(source.tree, rules.Record(source)), places))
  }

  datatype After = After(shelves: map<string, Tree>, places: Places)

  function Outcome(rules: Rules, source: SourceDir, shelves: map<string, Tree>, places: Places): After
    requires Admissible(rules, source, shelves, places)
  {
    var shelf := if source.Name() in shelves then shelves[source.Name()] else Shelved(source.tree, rules.Record(source));
    After(shelves[source.Name() := shelf], PlacesAfter(rules, source.Name(), shelf, places))
  }

  /** The first entry that is not a plain file or directory refuses the source. */
  method ValidatePackageSourceTree(t: Tree) returns (plain: bool)
    requires Sound(t)
    ensures plain <==> Plain(t)
  {
    hide Reached;
    var entries := Walk(t, SourceSkip());
    for i := 0 to |entries|
      invariant forall p | p in entries[..i] :: p in t && (t[p].File? || t[p].Directory?)
    {
      var p := entries[i];
      assert p in entries;
      ReachedIn(t, SourceSkip(), p);
      if !t[p].File? && !t[p].Directory? {
        return false;
      }
    }
    assert entries[..|entries|] == entries;
    plain := true;
  }

  lemma PlainIsReadable(t: Tree)
    requires Plain(t)
    ensures Readable(t, SourceSkip())
  {
    hide Reached;
  }

  lemma PlainIsCopyable(t: Tree)
    requires Sound(t) && Plain(t)
    ensures Copyable(t, StagingSkip())
  {
    hide Reached, IsLocalSourceEntry;
    forall p | p in t && Reached(t, StagingSkip(), p) ensures CopyOf(t[p]).Some? {
      StagingLeaves(t, p);
    }
  }

  /** Where the record goes, the staged copy has what the source has. */
  lemma StagedRecord(source: Tree)
    requires Sound(source)
    ensures [PROVENANCE] in Copied(source, StagingSkip()) && Copied(source, StagingSkip())[[PROVENANCE]].Directory?
        <==> [PROVENANCE] in source && source[[PROVENANCE]].Directory?
  {
    hide Reached, IsLocalSourceEntry;
    StagingLeaves(source, [PROVENANCE]);
    ProvenanceIsContent();
  }

  lemma SoundRecord(source: Tree, record: Bytes)
    requires Sound(source) && Stageable(source)
    ensures Sound(Shelved(source, record))
  {
    ShelvedFiles(source, record);
  }

  /** The part of a package that ends up at its place. */
  function Shipped(source: Tree): Tree {
    map p | p in source && p != [] && !IsLocalSourceEntry(p[0]) && MANIFEST !in p && PROVENANCE !in p :: source[p]
  }

  /**
   * Installing a plain source by way of a fresh shelf puts at its place exactly the source's own
   * entries, less the top-level tooling and the bookkeeping files wherever they sit.
   */
  lemma InstalledIsShipped(source: Tree, record: Bytes)
    requires Sound(source) && Plain(source) && Stageable(source)
    ensures Copyable(Shelved(source, record), InstallSkip())
    ensures Copied(Shelved(source, record), InstallSkip()) == Shipped(source)
  {
    hide Reached, IsLocalSourceEntry, Sound, FilesOf;
    var shelf := Shelved(source, record);
    ShelvedFiles(source, record);
    ShelvedCopyable(source, record);
    hide Shelved, Stageable, Plain;
    var placed := Copied(shelf, InstallSkip());
    forall p ensures p in placed <==> p in Shipped(source) {
      ShippedPath(source, record, p);
    }
    forall p | p in placed ensures placed[p] == source[p] {
      ShippedPath(source, record, p);
    }
  }

  lemma ShelvedCopyable(source: Tree, record: Bytes)
    ensures Copyable(Shelved(source, record), InstallSkip())
  {
    hide Reached;
  }

  lemma ShippedPath(source: Tree, record: Bytes, p: Path)
    requires Sound(source) && Plain(source) && Sound(Shelved(source, record))
    ensures p in Copied(Shelved(source, record), InstallSkip()) <==> p in Shipped(source)
    ensures p in Shipped(source) ==> Copied(Shelved(source, record), InstallSkip())[p] == source[p]
  {
    hide Reached, IsLocalSourceEntry;
    InstallLeaves(Shelved(source, record), p);
    StagingLeaves(source, p);
    assert p == [PROVENANCE] ==> PROVENANCE in p;
  }

  /**
   * A package whose source carries no provenance file can be staged, forgotten at its place and
   * installed again from the same directory: the second time its shelf is recognised as it is.
   */
  lemma StagedAgain(rules: Rules, source: SourceDir, shelves: map<string, Tree>, places: Places)
    requires Injective(rules.digest) && source.Dir? && Sound(source.tree) && PlainPaths(SourceFiles(source.tree))
    requires source.Name() !in shelves
    ensures Admissible(rules, source, shelves, places) ==>
      var first := Outcome(rules, source, shelves, places);
      && (Admissible(rules, source, first.shelves, places) <==> [PROVENANCE] !in source.tree)
      && ([PROVENANCE] !in source.tree ==> Outcome(rules, source, first.shelves, places) == first)
  {
    hide Reached, Copied, Copyable, FingerprintOf, FilesOf, IsLocalSourceEntry, CubesOnDisk, Installable;
    if !Admissible(rules, source, shelves, places) { return; }
    var tree, record := source.tree, rules.Record(source);
    PlainIsCopyable(tree);
    FreshShelfMatches(rules.digest, tree, record);
    PlainIsReadable(tree);
    ShelvedReadable(tree, record);
  }

  /**
   * Staging leaves a shelf that the drift check finds up to date as long as the source stays as it was,
   * exactly when that source has no top-level provenance file.
   */
  lemma StagedReadsUpToDate(rules: Rules, source: SourceDir, shelves: map<string, Tree>, places: Places,
                            directories: map<string, Tree>)
    requires Injective(rules.digest) && rules.ReadsBack()
    requires source.Dir? && Sound(source.tree) && PlainPaths(SourceFiles(source.tree))
    requires source.Name() !in shelves
    requires source.path in directories && directories[source.path] == source.tree
    ensures Admissible(rules, source, shelves, places) ==>
      var shelf := Outcome(rules, source, shelves, places).shelves[source.Name()];
      (InSync(rules.digest, DriftInputOf(rules.decode, shelf, directories)) <==> [PROVENANCE] !in source.tree)
  {
    hide Reached, Copied, Copyable, FingerprintOf, FilesOf, IsLocalSourceEntry, CubesOnDisk, Installable, InSync, Shelved;
    if !Admissible(rules, source, shelves, places) { return; }
    FreshShelfInSync(rules.digest, rules.decode, source.tree, rules.Record(source), source.path, directories);
  }

  /** Reusing a shelf installs the source's own files too: the bytes shipped are those of the source. */
  lemma ReusedFiles(rules: Rules, source: Tree, shelf: Tree)
    requires Injective(rules.digest) && Sound(source) && Sound(shelf) && SameContent(rules, shelf, source)
    requires PlainPaths(SourceFiles(source)) && PlainPaths(ShelfFiles(shelf))
    ensures FilesOf(shelf, InstallSkip()) == FilesOf(source, InstallSkip())
  {
    hide Reached, IsLocalSourceEntry, FingerprintOf;
    FingerprintDecides(rules.digest, ShelfFiles(shelf), SourceFiles(source));
    forall p ensures p in FilesOf(shelf, InstallSkip()) <==> p in FilesOf(source, InstallSkip()) {
      ReusedFile(source, shelf, p);
    }
    forall p | p in FilesOf(shelf, InstallSkip()) ensures FilesOf(shelf, InstallSkip())[p] == FilesOf(source, InstallSkip())[p] {
      ReusedFile(source, shelf, p);
    }
  }

  lemma ReusedFile(source: Tree, shelf: Tree, p: Path)
    requires Sound(source) && Sound(shelf) && ShelfFiles(shelf) == SourceFiles(source)
    ensures p in FilesOf(shelf, InstallSkip()) <==> p in FilesOf(source, InstallSkip())
    ensures p in FilesOf(shelf, InstallSkip()) ==> FilesOf(shelf, InstallSkip())[p] == FilesOf(source, InstallSkip())[p]
  {
    hide Reached, IsLocalSourceEntry;
    InstallLeaves(shelf, p);
    InstallLeaves(source, p);
    TopSkipLeaves(source, {}, true, p);
    TopSkipLeaves(shelf, {PROVENANCE}, false, p);
    assert p in ShelfFiles(shelf) <==> p in SourceFiles(source);
    assert p in ShelfFiles(shelf) ==> ShelfFiles(shelf)[p] == SourceFiles(source)[p];
    assert p != [] && p[0] == PROVENANCE ==> PROVENANCE in p;
  }
}
