/**
 * What of a package counts as its content, the fingerprint of that content, the two readings of it
 * (a live source, a store shelf), and the drift verdict that compares them with the record.
 */
module Fingerprints {
  import opened Wrappers
  import opened Text
  import opened Listings
  import opened Strings
  import opened Trees

  const PROVENANCE := "qwbe-source.json"
  const MANIFEST := "qwbe-package.json"
  const LOCAL_SOURCE_DIRECTORIES := {"node_modules", "docs", "probes", "test", "tools", "checks", "frontend", "dist", "build"}
  const LOCAL_SOURCE_FILES := {"package.json", "package-lock.json", "tsconfig.json"}

  // --- names that are not content ----------------------------------------------------------------

  predicate EndsWith(s: string, suffix: string) {
    |suffix| <= |s| && s[|s| - |suffix|..] == suffix
  }

  predicate LocalTestFile(name: string) {
    exists kind, ext | kind in {"test", "spec"} && ext in {"mjs", "js", "jsx"} :: EndsWith(name, "." + kind + "." + ext)
  }

  predicate IsLocalSourceEntry(name: string) {
    "." <= name || name in LOCAL_SOURCE_DIRECTORIES || name in LOCAL_SOURCE_FILES || LocalTestFile(name)
  }

  /** Whether a path belongs to the package at all: decided by its first name. */
  predicate IncludePackageSourcePath(p: Path) {
    p == [] || !IsLocalSourceEntry(p[0])
  }

  /** Manifest and provenance, at any depth. */
  predicate IsBookkeeping(p: Path) {
    p != [] && p[|p| - 1] in {MANIFEST, PROVENANCE}
  }

  /** The fingerprint's own rule: some top-level names, and local tooling when asked to. */
  function TopSkip(exclude: set<string>, skipLocalTooling: bool): Skip {
    (p: Path, n: Node) => |p| == 1 && (p[0] in exclude || (skipLocalTooling && IsLocalSourceEntry(p[0])))
  }

  /** The copy's rule when staging a source. */
  function StagingSkip(): Skip {
    (p: Path, n: Node) => !IncludePackageSourcePath(p)
  }

  /** The copy's rule when installing from a shelf. */
  function InstallSkip(): Skip {
    (p: Path, n: Node) => !IncludePackageSourcePath(p) || IsBookkeeping(p)
  }

  function SourceSkip(): Skip { TopSkip({}, true) }

  function ShelfSkip(): Skip { TopSkip({PROVENANCE}, false) }

  /** The name ends in `.test.` or `.spec.` and one of three extensions, after whatever stem. */
  predicate TestNamed(name: string) {
    exists i, kind, ext | kind in {"test", "spec"} && ext in {"mjs", "js", "jsx"} && 0 <= i <= |name| ::
      name[i..] == "." + kind + "." + ext
  }

  /** Local tooling, spelled out: hidden names, nine directories, three files, and test files. */
  lemma LocalEntryExactly(name: string)
    ensures IsLocalSourceEntry(name) <==>
      || (name != "" && name[0] == '.')
      || name in {"node_modules", "docs", "probes", "test", "tools", "checks", "frontend", "dist", "build"}
      || name in {"package.json", "package-lock.json", "tsconfig.json"}
      || TestNamed(name)
  {
    assert "." <= name <==> name != "" && name[0] == '.';
    assert LocalTestFile(name) <==> TestNamed(name) by {
      if kind, ext :| kind in {"test", "spec"} && ext in {"mjs", "js", "jsx"} && EndsWith(name, "." + kind + "." + ext) {
        assert name[|name| - |"." + kind + "." + ext|..] == "." + kind + "." + ext;
      }
      if i, kind, ext :| kind in {"test", "spec"} && ext in {"mjs", "js", "jsx"} && 0 <= i <= |name|
                         && name[i..] == "." + kind + "." + ext {
        assert EndsWith(name, "." + kind + "." + ext);
      }
    }
  }

  // --- what the rules leave ----------------------------------------------------------------------

  lemma {:induction false} PrefixIn(t: Tree, p: Path, k: nat)
    requires Sound(t) && p in t && 1 <= k <= |p|
    ensures p[..k] in t
    decreases |p| - k
  {
    if k < |p| {
      PrefixIn(t, p, k + 1);
      assert IsDirectory(t, Parent(p[..k + 1]));
      assert Parent(p[..k + 1]) == p[..k];
    } else {
      assert p[..k] == p;
    }
  }

  /** Skipping top-level names leaves exactly the paths whose first name is not one of them. */
  lemma TopSkipLeaves(t: Tree, exclude: set<string>, skipLocalTooling: bool, p: Path)
    requires Sound(t)
    ensures Reached(t, TopSkip(exclude, skipLocalTooling), p)
       <==> p in t && p[0] !in exclude && !(skipLocalTooling && IsLocalSourceEntry(p[0]))
  {
    hide IsLocalSourceEntry;
    var skip := TopSkip(exclude, skipLocalTooling);
    if p in t {
      forall k | 1 <= k <= |p| ensures p[..k] in t && (k > 1 ==> Passes(t, skip, p[..k])) {
        PrefixIn(t, p, k);
      }
      assert p[..1] == [p[0]];
      if Reached(t, skip, p) { assert Passes(t, skip, p[..1]); }
    }
  }

  /** Staging copies exactly what the source fingerprint reads. */
  lemma StagingLeaves(t: Tree, p: Path)
    requires Sound(t)
    ensures Reached(t, StagingSkip(), p) <==> p in t && !IsLocalSourceEntry(p[0])
    ensures Reached(t, StagingSkip(), p) <==> Reached(t, SourceSkip(), p)
  {
    hide IsLocalSourceEntry;
    var skip := StagingSkip();
    TopSkipLeaves(t, {}, true, p);
    if p in t {
      forall k | 1 <= k <= |p| ensures p[..k] in t && (!IsLocalSourceEntry(p[0]) ==> Passes(t, skip, p[..k])) {
        PrefixIn(t, p, k);
      }
      if Reached(t, skip, p) { assert Passes(t, skip, p[..1]); }
    }
  }

  /** Installing leaves out local tooling at the top and bookkeeping wherever it sits. */
  lemma InstallLeaves(t: Tree, p: Path)
    requires Sound(t)
    ensures Reached(t, InstallSkip(), p)
       <==> p in t && !IsLocalSourceEntry(p[0]) && MANIFEST !in p && PROVENANCE !in p
  {
    hide IsLocalSourceEntry;
    var skip := InstallSkip();
    if p in t {
      forall k | 1 <= k <= |p| ensures p[..k] in t { PrefixIn(t, p, k); }
      if Reached(t, skip, p) {
        assert Passes(t, skip, p[..1]);
        forall i | 0 <= i < |p| ensures p[i] !in {MANIFEST, PROVENANCE} {
          assert Passes(t, skip, p[..i + 1]);
        }
      } else if MANIFEST !in p && PROVENANCE !in p {
        var k :| 1 <= k <= |p| && !Passes(t, skip, p[..k]);
        assert p[..k][|p[..k]| - 1] == p[k - 1] && p[k - 1] in p;
      }
    }
  }

  // --- the fingerprint ---------------------------------------------------------------------------

  /** SHA-256 as hexadecimal text, of a file's bytes and of a text. */
  datatype Digest = Digest(ofBytes: Bytes -> string, ofText: string -> string)

  ghost predicate Injective(d: Digest) {
    && (forall a, b :: d.ofBytes(a) == d.ofBytes(b) ==> a == b)
    && (forall a, b :: d.ofText(a) == d.ofText(b) ==> a == b)
    && (forall a :: ':' !in d.ofBytes(a) && '\n' !in d.ofBytes(a))
  }

  /** The files of a package, by path. */
  type Files = map<Path, Bytes>

  function Line(d: Digest, p: Path, bytes: Bytes): string {
    Join(p, '/') + ":" + d.ofBytes(bytes)
  }

  function Lines(d: Digest, files: Files): set<string> {
    set p | p in files :: Line(d, p, files[p])
  }

  function SortedLines(lines: set<string>): (l: seq<string>)
    ensures IsListing(TextLess, lines, l)
  {
    TextStrictTotal();
    Listing(TextLess, lines)
  }

  function FingerprintOf(d: Digest, files: Files): string {
    d.ofText(Join(SortedLines(Lines(d, files)), '\n'))
  }

  predicate Readable(t: Tree, skip: Skip) {
    forall p | p in t && Reached(t, skip, p) && !t[p].Directory? :: BytesOf(t[p]).Some?
  }

  function FilesOf(t: Tree, skip: Skip): Files {
    map p | p in t && Reached(t, skip, p) && BytesOf(t[p]).Some? :: BytesOf(t[p]).value
  }

  /** What is read of a tree: a file's bytes, and through a link those of what it points at. */
  lemma FilesRead(t: Tree, skip: Skip, p: Path, bytes: Bytes)
    ensures p in FilesOf(t, skip) && FilesOf(t, skip)[p] == bytes
       <==> Reached(t, skip, p) && t[p] in {File(bytes), Link(Some(bytes))}
    ensures Readable(t, skip) <==> forall q | q in t && Reached(t, skip, q) :: t[q] !in {Link(None), Special}
  {
    hide Reached;
    ReachedIsThere(t, skip, p);
  }

  lemma ReachedIsThere(t: Tree, skip: Skip, p: Path)
    ensures Reached(t, skip, p) ==> p in t
  {
  }

  /** Walk, hash every file, sort, join, hash; a file that cannot be read stops it. */
  method PackageSourceFingerprint(d: Digest, t: Tree, exclude: set<string>, skipLocalTooling: bool) returns (r: Option<string>)
    requires Sound(t)
    ensures r.Some? <==> Readable(t, TopSkip(exclude, skipLocalTooling))
    ensures r.Some? ==> r.value == FingerprintOf(d, FilesOf(t, TopSkip(exclude, skipLocalTooling)))
  {
    hide Reached, Line, TopSkip;
    var skip := TopSkip(exclude, skipLocalTooling);
    var entries := Walk(t, skip);
    var lines: set<string> := {};
    ghost var read: Files := map[];
    for i := 0 to |entries|
      invariant forall p :: p in read <==> p in entries[..i] && p in t && !t[p].Directory?
      invariant forall p | p in read :: BytesOf(t[p]) == Some(read[p])
      invariant lines == Lines(d, read)
    {
      var p := entries[i];
      assert p in entries && p in t by { assert Reached(t, skip, p); ReachedIn(t, skip, p); }
      if !t[p].Directory? {
        var bytes := BytesOf(t[p]);
        if bytes.None? {
          return None;
        }
        LinesGrow(d, read, p, bytes.value);
        lines := lines + {Line(d, p, bytes.value)};
        read := read[p := bytes.value];
      }
    }
    assert entries[..|entries|] == entries;
    assert read == FilesOf(t, skip);
    r := Some(d.ofText(Join(SortedLines(lines), '\n')));
  }

  lemma LinesGrow(d: Digest, files: Files, p: Path, bytes: Bytes)
    requires p in files ==> files[p] == bytes
    ensures Lines(d, files[p := bytes]) == Lines(d, files) + {Line(d, p, bytes)}
  {
    hide Line;
    var next := files[p := bytes];
    forall l | l in Lines(d, files) + {Line(d, p, bytes)} ensures l in Lines(d, next) {
      if l in Lines(d, files) {
        var q :| q in files && l == Line(d, q, files[q]);
        assert q in next && next[q] == files[q];
      } else {
        assert p in next;
      }
    }
  }

  // --- equal fingerprints, equal content ---------------------------------------------------------

  predicate PlainName(n: string) {
    n != "" && '/' !in n && '\n' !in n
  }

  ghost predicate PlainPaths(files: Files) {
    forall p | p in files :: p != [] && forall n | n in p :: PlainName(n)
  }

  lemma {:induction false} JoinFree(parts: seq<string>, sep: char, c: char)
    requires c != sep && forall p | p in parts :: c !in p
    ensures c !in Join(parts, sep)
  {
    if |parts| > 1 { JoinFree(parts[1..], sep, c); }
  }

  lemma {:induction false} JoinHas(parts: seq<string>, sep: char, c: char)
    requires exists p :: p in parts && c in p
    ensures c in Join(parts, sep)
  {
    var p :| p in parts && c in p;
    if |parts| > 1 && p != parts[0] {
      assert p in parts[1..];
      JoinHas(parts[1..], sep, c);
    }
  }

  lemma ColonInside(a: string, x: string, b: string, y: string)
    requires a + ":" + x == b + ":" + y && |x| < |y|
    ensures ':' in y
  {
    var s := a + ":" + x;
    assert s[|a|] == ':' && (b + ":" + y)[|a|] == y[|a| - |b| - 1];
  }

  lemma LastColon(a: string, x: string, b: string, y: string)
    requires a + ":" + x == b + ":" + y && ':' !in x && ':' !in y
    ensures a == b && x == y
  {
    if |x| < |y| {
      ColonInside(a, x, b, y);
    } else if |y| < |x| {
      ColonInside(b, y, a, x);
    } else {
      var s := a + ":" + x;
      assert a == s[..|a|] && b == (b + ":" + y)[..|b|];
      assert x == s[|a| + 1..] && y == (b + ":" + y)[|b| + 1..];
    }
  }

  lemma LineInjective(d: Digest, p: Path, x: Bytes, q: Path, y: Bytes)
    requires Injective(d) && p != [] && q != []
    requires forall n | n in p :: PlainName(n)
    requires forall n | n in q :: PlainName(n)
    requires Line(d, p, x) == Line(d, q, y)
    ensures p == q && x == y
  {
    LastColon(Join(p, '/'), d.ofBytes(x), Join(q, '/'), d.ofBytes(y));
    SplitJoin(p, '/');
    SplitJoin(q, '/');
  }

  lemma LinePlain(d: Digest, p: Path, x: Bytes)
    requires Injective(d) && forall n | n in p :: PlainName(n)
    ensures '\n' !in Line(d, p, x) && ':' in Line(d, p, x)
  {
    JoinFree(p, '/', '\n');
    assert Line(d, p, x)[|Join(p, '/')|] == ':';
  }

  lemma JoinedLines(d: Digest, a: Files, b: Files)
    requires Injective(d) && PlainPaths(a) && PlainPaths(b)
    requires Join(SortedLines(Lines(d, a)), '\n') == Join(SortedLines(Lines(d, b)), '\n')
    ensures Lines(d, a) == Lines(d, b)
  {
    hide Line, Injective;
    var la, lb := SortedLines(Lines(d, a)), SortedLines(Lines(d, b));
    PlainLines(d, a);
    PlainLines(d, b);
    if la != [] && lb != [] {
      SplitJoin(la, '\n');
      SplitJoin(lb, '\n');
    } else {
      if la != [] { JoinHas(la, '\n', ':'); }
      if lb != [] { JoinHas(lb, '\n', ':'); }
      assert la == lb;
    }
    forall l ensures l in Lines(d, a) <==> l in Lines(d, b) {
      assert l in la <==> l in lb;
    }
  }

  lemma PlainLines(d: Digest, files: Files)
    requires Injective(d) && PlainPaths(files)
    ensures forall l | l in SortedLines(Lines(d, files)) :: '\n' !in l && ':' in l
    ensures SortedLines(Lines(d, files)) != [] ==>
      exists l :: l in SortedLines(Lines(d, files)) && ':' in l
  {
    hide Line, Injective;
    var sorted := SortedLines(Lines(d, files));
    forall l | l in sorted ensures '\n' !in l && ':' in l {
      var p :| p in files && l == Line(d, p, files[p]);
      LinePlain(d, p, files[p]);
    }
    if sorted != [] { assert sorted[0] in sorted; }
  }

  /** Two packages have one fingerprint exactly when they hold the same files with the same bytes. */
  lemma FingerprintDecides(d: Digest, a: Files, b: Files)
    requires Injective(d) && PlainPaths(a) && PlainPaths(b)
    ensures FingerprintOf(d, a) == FingerprintOf(d, b) <==> a == b
  {
    hide Line;
    if FingerprintOf(d, a) == FingerprintOf(d, b) {
      JoinedLines(d, a, b);
      LinesInclude(d, a, b);
      LinesInclude(d, b, a);
    }
  }

  lemma LinesInclude(d: Digest, a: Files, b: Files)
    requires Injective(d) && PlainPaths(a) && PlainPaths(b) && Lines(d, a) <= Lines(d, b)
    ensures forall p | p in a :: p in b && b[p] == a[p]
  {
    hide Line, Injective;
    forall p | p in a ensures p in b && b[p] == a[p] {
      assert Line(d, p, a[p]) in Lines(d, a);
      var q :| q in b && Line(d, p, a[p]) == Line(d, q, b[q]);
      LineInjective(d, p, a[p], q, b[q]);
    }
  }

  lemma OneLine(d: Digest, p: Path, y: Bytes)
    ensures Lines(d, map[p := y]) == {Line(d, p, y)}
  {
    var none: Files := map[];
    LinesGrow(d, none, p, y);
    assert none[p := y] == map[p := y];
  }

  lemma TwoLines(d: Digest, p: Path, x: Bytes, q: Path, y: Bytes)
    requires p != q
    ensures Lines(d, map[p := x, q := y]) == {Line(d, p, x), Line(d, q, y)}
  {
    OneLine(d, p, x);
    LinesGrow(d, map[p := x], q, y);
    assert map[p := x][q := y] == map[p := x, q := y];
  }

  lemma JoinTwo(a: string, b: string)
    ensures Join([a], '\n') == a && Join([a, b], '\n') == a + ['\n'] + b
  {
    assert [a, b][1..] == [b];
  }

  /** A newline in a name can make two different packages share a fingerprint. */
  lemma NewlineConfuses(d: Digest, x: Bytes, y: Bytes)
    ensures FingerprintOf(d, map[["a:" + d.ofBytes(x) + "\nb"] := y]) == FingerprintOf(d, map[["a"] := x, ["b"] := y])
  {
    var p := ["a:" + d.ofBytes(x) + "\nb"];
    var la, lb := Line(d, ["a"], x), Line(d, ["b"], y);
    var joined := la + ['\n'] + lb;
    assert Line(d, p, y) == joined;
    FirstLetters(la, lb);
    hide Line, Join, SortedLines, Lines, TextLess;
    OneLine(d, p, y);
    TwoLines(d, ["a"], x, ["b"], y);
    SortedOne(joined);
    SortedTwo(la, lb);
    JoinTwo(joined, "");
    JoinTwo(la, lb);
  }

  lemma FirstLetters(a: string, b: string)
    requires a != "" && b != "" && a[0] == 'a' && b[0] == 'b'
    ensures TextLess(a, b) && a != b
  {
    assert Codes(a)[0] < Codes(b)[0];
  }

  lemma SortedOne(a: string)
    ensures SortedLines({a}) == [a]
  {
    TextStrictTotal();
    ListingUnique(TextLess, TextLess, {a}, SortedLines({a}), [a]);
  }

  lemma SortedTwo(a: string, b: string)
    requires TextLess(a, b) && a != b
    ensures SortedLines({a, b}) == [a, b]
  {
    TextStrictTotal();
    ListingUnique(TextLess, TextLess, {a, b}, SortedLines({a, b}), [a, b]);
  }

  // --- a staged shelf ----------------------------------------------------------------------------

  /** The shelf staging writes: the kept source, copied, and the record of where it came from. */
  function Shelved(source: Tree, record: Bytes): Tree {
    Copied(source, StagingSkip())[[PROVENANCE] := File(record)]
  }

  function SourceFiles(source: Tree): Files {
    FilesOf(source, SourceSkip())
  }

  function ShelfFiles(shelf: Tree): Files {
    FilesOf(shelf, ShelfSkip())
  }

  lemma CopiedSound(t: Tree, skip: Skip)
    requires Sound(t)
    ensures Sound(Copied(t, skip))
  {
    hide ReachedFrom;
    var to := Copied(t, skip);
    forall p | p in to ensures p != [] && IsDirectory(to, Parent(p)) && forall n | n in p :: n != "" && '/' !in n {
      assert IsDirectory(t, Parent(p));
      if Parent(p) != [] { ReachedParent(t, skip, p); }
    }
  }

  lemma ReachedParent(t: Tree, skip: Skip, p: Path)
    requires Reached(t, skip, p) && |p| > 1
    ensures Reached(t, skip, Parent(p))
  {
    forall k | 1 <= k <= |Parent(p)| ensures Passes(t, skip, Parent(p)[..k]) {
      assert Parent(p)[..k] == p[..k];
    }
    assert p[..|p| - 1] == Parent(p) && Passes(t, skip, p[..|p| - 1]);
  }

  lemma ShelvedSound(source: Tree, record: Bytes)
    requires Sound(source) && !([PROVENANCE] in source && source[[PROVENANCE]].Directory?)
    ensures Sound(Shelved(source, record))
  {
    var kept := Copied(source, StagingSkip());
    CopiedSound(source, StagingSkip());
    assert [PROVENANCE] in kept ==> !kept[[PROVENANCE]].Directory?;
    hide Copied, StagingSkip;
    RecordAdded(kept, record);
  }

  lemma RecordAdded(kept: Tree, record: Bytes)
    requires Sound(kept) && !([PROVENANCE] in kept && kept[[PROVENANCE]].Directory?)
    ensures Sound(kept[[PROVENANCE] := File(record)])
  {
    var shelf := kept[[PROVENANCE] := File(record)];
    forall p | p in shelf ensures p != [] && IsDirectory(shelf, Parent(p)) && forall n | n in p :: n != "" && '/' !in n {
      if p != [PROVENANCE] { assert IsDirectory(kept, Parent(p)); }
    }
  }

  /** A shelf holds, beside its record, exactly the files of the source it was staged from. */
  lemma ShelvedFiles(source: Tree, record: Bytes)
    requires Sound(source) && !([PROVENANCE] in source && source[[PROVENANCE]].Directory?)
    ensures Sound(Shelved(source, record))
    ensures ShelfFiles(Shelved(source, record)) == map p | p in SourceFiles(source) && p[0] != PROVENANCE :: SourceFiles(source)[p]
  {
    ShelvedSound(source, record);
    hide Reached, IsLocalSourceEntry, Shelved, Sound, ShelfFiles, SourceFiles;
    var shelf := Shelved(source, record);
    forall p | p in SourceFiles(source) ensures p != [] { ShelvedFile(source, record, p); }
    forall p ensures p in ShelfFiles(shelf) <==> p in SourceFiles(source) && p[0] != PROVENANCE {
      ShelvedFile(source, record, p);
    }
    forall p | p in ShelfFiles(shelf) ensures ShelfFiles(shelf)[p] == SourceFiles(source)[p] {
      ShelvedFile(source, record, p);
    }
  }

  lemma ShelvedFile(source: Tree, record: Bytes, p: Path)
    requires Sound(source) && Sound(Shelved(source, record))
    ensures p in SourceFiles(source) ==> p != []
    ensures p in ShelfFiles(Shelved(source, record)) <==> p in SourceFiles(source) && p[0] != PROVENANCE
    ensures p in ShelfFiles(Shelved(source, record)) ==> ShelfFiles(Shelved(source, record))[p] == SourceFiles(source)[p]
  {
    hide Reached, IsLocalSourceEntry;
    StagingLeaves(source, p);
    TopSkipLeaves(Shelved(source, record), {PROVENANCE}, false, p);
  }

  /**
   * A freshly staged shelf has its source's fingerprint exactly when the source carries no top-level
   * provenance file of its own.
   */
  lemma FreshShelfMatches(d: Digest, source: Tree, record: Bytes)
    requires Injective(d) && Sound(source) && Copyable(source, StagingSkip()) && PlainPaths(SourceFiles(source))
    requires !([PROVENANCE] in source && source[[PROVENANCE]].Directory?)
    ensures FingerprintOf(d, ShelfFiles(Shelved(source, record))) == FingerprintOf(d, SourceFiles(source))
       <==> [PROVENANCE] !in source
  {
    hide Reached, FingerprintOf, IsLocalSourceEntry;
    var shelf := ShelfFiles(Shelved(source, record));
    ShelvedFiles(source, record);
    FingerprintDecides(d, shelf, SourceFiles(source));
    ProvenanceIsContent();
    StagingLeaves(source, [PROVENANCE]);
    if [PROVENANCE] in source {
      assert [PROVENANCE] in SourceFiles(source) && [PROVENANCE] !in shelf;
    } else {
      forall p | p in SourceFiles(source) ensures p[0] != PROVENANCE {
        StagingLeaves(source, p);
        PrefixIn(source, p, 1);
        assert p[..1] == [p[0]];
      }
    }
  }

  lemma LastLetter(s: string, suffix: string)
    requires EndsWith(s, suffix) && suffix != ""
    ensures s != "" && s[|s| - 1] == suffix[|suffix| - 1]
  {
  }

  lemma ProvenanceIsContent()
    ensures !IsLocalSourceEntry(PROVENANCE)
  {
    forall kind, ext | kind in {"test", "spec"} && ext in {"mjs", "js", "jsx"}
      ensures !EndsWith(PROVENANCE, "." + kind + "." + ext)
    {
      var suffix := "." + kind + "." + ext;
      assert suffix[|suffix| - 1] == ext[|ext| - 1];
      if EndsWith(PROVENANCE, suffix) { LastLetter(PROVENANCE, suffix); }
    }
    assert "."[0] == '.' && PROVENANCE[0] == 'q';
  }

  // --- drift -------------------------------------------------------------------------------------

  /** What a shelf's provenance file says, when it can be decoded. */
  datatype Provenance = Provenance(sourcePath: string, fingerprint: string)

  datatype Reason = SourceUnreadable | SourceChanged | ShelfChanged

  datatype Verdict = UpToDate | NoProvenance | SourceMissing | Drifted(reasons: seq<Reason>)

  /** The shelf's record decoded, None when there is none or it cannot be read; and the directory it names, if it is one. */
  datatype DriftInput = DriftInput(shelf: Tree, provenance: Option<Provenance>, source: Option<Tree>)

  /** What the verdict on a shelf is drawn from; `directories` are the trees on disk by their paths. */
  function DriftInputOf(decode: Bytes -> Option<Provenance>, shelf: Tree, directories: map<string, Tree>): DriftInput {
    var bytes := if [PROVENANCE] in shelf then BytesOf(shelf[[PROVENANCE]]) else None;
    var provenance := if bytes.Some? then decode(bytes.value) else None;
    DriftInput(shelf, provenance,
               if provenance.Some? && provenance.value.sourcePath in directories
               then Some(directories[provenance.value.sourcePath]) else None)
  }

  /** The record is what the shelf's provenance file decodes to, and the source the directory it names, if there is one. */
  lemma DriftInputExactly(decode: Bytes -> Option<Provenance>, shelf: Tree, directories: map<string, Tree>, record: Provenance)
    ensures var x := DriftInputOf(decode, shelf, directories);
      && x.shelf == shelf
      && (x.provenance == Some(record) <==>
            [PROVENANCE] in shelf
            && exists bytes :: shelf[[PROVENANCE]] in {File(bytes), Link(Some(bytes))} && decode(bytes) == Some(record))
      && (x.provenance == Some(record) ==>
            x.source == if record.sourcePath in directories then Some(directories[record.sourcePath]) else None)
      && (x.provenance.None? ==> x.source.None?)
  {
    if [PROVENANCE] in shelf && BytesOf(shelf[[PROVENANCE]]).Some? {
      var bytes := BytesOf(shelf[[PROVENANCE]]).value;
      assert shelf[[PROVENANCE]] in {File(bytes), Link(Some(bytes))};
    }
  }

  /** Recorded, source and shelf all answer with one fingerprint. */
  predicate InSync(d: Digest, x: DriftInput)
  {
    && x.provenance.Some? && x.source.Some?
    && Readable(x.source.value, SourceSkip()) && FingerprintOf(d, SourceFiles(x.source.value)) == x.provenance.value.fingerprint
    && Readable(x.shelf, ShelfSkip()) && FingerprintOf(d, ShelfFiles(x.shelf)) == x.provenance.value.fingerprint
  }

  /** A reason is given exactly when it holds. */
  ghost predicate Justified(d: Digest, x: DriftInput, reason: Reason)
    requires x.provenance.Some? && x.source.Some?
  {
    var recorded, source := x.provenance.value.fingerprint, x.source.value;
    match reason
    case SourceUnreadable => !Readable(source, SourceSkip())
    case SourceChanged => Readable(source, SourceSkip()) && FingerprintOf(d, SourceFiles(source)) != recorded
    case ShelfChanged => FingerprintOf(d, ShelfFiles(x.shelf)) != recorded
  }

  /** The verdict on one shelf; None when the shelf itself cannot be hashed. */
  method ShelfDrift(d: Digest, x: DriftInput) returns (v: Option<Verdict>)
    requires Sound(x.shelf) && (x.source.Some? ==> Sound(x.source.value))
    ensures v == Some(UpToDate) <==> InSync(d, x)
    ensures v == Some(NoProvenance) <==> x.provenance.None?
    ensures v == Some(SourceMissing) <==> x.provenance.Some? && x.source.None?
    ensures v.None? <==> x.provenance.Some? && x.source.Some? && !Readable(x.shelf, ShelfSkip())
    ensures v.Some? && v.value.Drifted? ==> x.provenance.Some? && x.source.Some?
    ensures v.Some? && v.value.Drifted? ==> forall reason :: reason in v.value.reasons <==> Justified(d, x, reason)
  {
    hide Reached, FingerprintOf, FilesOf, Readable, TopSkip, Sound;
    if x.provenance.None? {
      return Some(NoProvenance);
    }
    if x.source.None? {
      return Some(SourceMissing);
    }
    var recorded := x.provenance.value.fingerprint;
    var reasons := [];
    var source := PackageSourceFingerprint(d, x.source.value, {}, true);
    if source.None? {
      reasons := reasons + [SourceUnreadable];
    } else if source.value != recorded {
      reasons := reasons + [SourceChanged];
    }
    var shelf := PackageSourceFingerprint(d, x.shelf, {PROVENANCE}, false);
    if shelf.None? {
      return None;
    }
    if shelf.value != recorded {
      reasons := reasons + [ShelfChanged];
    }
    v := Some(if reasons != [] then Drifted(reasons) else UpToDate);
  }

  /** The record was made from some content: in sync means source and shelf both still hold exactly it. */
  lemma InSyncIsSameContent(d: Digest, x: DriftInput, staged: Files)
    requires x.provenance.Some? && x.source.Some? && x.provenance.value.fingerprint == FingerprintOf(d, staged)
    requires Readable(x.source.value, SourceSkip()) && Readable(x.shelf, ShelfSkip())
    requires Injective(d) && PlainPaths(staged) && PlainPaths(SourceFiles(x.source.value)) && PlainPaths(ShelfFiles(x.shelf))
    ensures InSync(d, x) <==> SourceFiles(x.source.value) == staged && ShelfFiles(x.shelf) == staged
  {
    hide FingerprintOf, FilesOf, Readable;
    FingerprintDecides(d, SourceFiles(x.source.value), staged);
    FingerprintDecides(d, ShelfFiles(x.shelf), staged);
  }

  /**
   * A shelf just staged with its own record is in sync with its unchanged source exactly when that source
   * has no top-level provenance file; with one, it reads as drifted from the start.
   */
  lemma FreshShelfInSync(d: Digest, decode: Bytes -> Option<Provenance>, source: Tree, record: Bytes, path: string,
                         directories: map<string, Tree>)
    requires Injective(d) && Sound(source) && Copyable(source, StagingSkip()) && PlainPaths(SourceFiles(source))
    requires !([PROVENANCE] in source && source[[PROVENANCE]].Directory?)
    requires decode(record) == Some(Provenance(path, FingerprintOf(d, SourceFiles(source))))
    requires path in directories && directories[path] == source
    ensures InSync(d, DriftInputOf(decode, Shelved(source, record), directories)) <==> [PROVENANCE] !in source
  {
    hide Reached, FingerprintOf, FilesOf, IsLocalSourceEntry, Copied;
    FreshShelfMatches(d, source, record);
    forall p | p in source && Reached(source, SourceSkip(), p) && !source[p].Directory? ensures BytesOf(source[p]).Some? {
      StagingLeaves(source, p);
      assert CopyOf(source[p]).Some?;
    }
    ShelvedReadable(source, record);
    var shelf := Shelved(source, record);
    assert shelf[[PROVENANCE]] == File(record);
  }

  lemma ShelvedReadable(source: Tree, record: Bytes)
    ensures Readable(Shelved(source, record), ShelfSkip())
  {
    hide Reached;
  }
}
