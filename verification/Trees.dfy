/** Directory trees, the one recursive walk over them, and the filtered copy built on it. */
module Trees {
  import opened Wrappers
  import opened Text

  type Bytes = seq<Byte>
  type Path = seq<string>

  /** Reading through a link yields what it points at, if that can be read. */
  datatype Node = File(bytes: Bytes) | Directory | Link(target: Option<Bytes>) | Special

  /** Every entry below a root, by its path from the root. */
  type Tree = map<Path, Node>

  function Parent(p: Path): Path
    requires p != []
  {
    p[..|p| - 1]
  }

  predicate IsDirectory(t: Tree, p: Path) {
    p == [] || (p in t && t[p].Directory?)
  }

  /** Entries sit in directories, and their names are names. */
  predicate Sound(t: Tree) {
    forall p | p in t :: p != [] && IsDirectory(t, Parent(p)) && forall n | n in p :: n != "" && '/' !in n
  }

  type Skip = (Path, Node) -> bool

  predicate Passes(t: Tree, skip: Skip, p: Path) {
    p in t && !skip(p, t[p])
  }

  /** Everything on the way from a directory down to the entry, itself included, is not skipped. */
  predicate ReachedFrom(t: Tree, skip: Skip, dir: Path, p: Path) {
    dir < p && p in t && forall k | |dir| < k <= |p| :: Passes(t, skip, p[..k])
  }

  predicate Reached(t: Tree, skip: Skip, p: Path) {
    ReachedFrom(t, skip, [], p)
  }

  // --- the walk ----------------------------------------------------------------------------------

  function ChildNames(t: Tree, dir: Path): set<string> {
    set p | p in t && p != [] && Parent(p) == dir :: p[|p| - 1]
  }

  lemma ChildNamed(t: Tree, dir: Path, name: string)
    ensures name in ChildNames(t, dir) <==> dir + [name] in t
  {
    var p := dir + [name];
    assert Parent(p) == dir && p[|p| - 1] == name;
    if name in ChildNames(t, dir) {
      var q :| q in t && q != [] && Parent(q) == dir && q[|q| - 1] == name;
      assert q == p;
    }
  }

  predicate Distinct<T(==)>(l: seq<T>) {
    forall i, j | 0 <= i < j < |l| :: l[i] != l[j]
  }

  /** The names in a directory, each once, in whatever order the disk gives them. */
  method ReadDirectory(t: Tree, dir: Path) returns (names: seq<string>)
    ensures Distinct(names) && forall n :: n in names <==> dir + [n] in t
  {
    var left := ChildNames(t, dir);
    names := [];
    while left != {}
      invariant Distinct(names) && forall n :: (n in names || n in left) <==> n in ChildNames(t, dir)
      invariant forall n | n in names :: n !in left
      decreases |left|
    {
      var n :| n in left;
      names, left := names + [n], left - {n};
    }
    forall n ensures n in names <==> dir + [n] in t { ChildNamed(t, dir, n); }
  }

  ghost function Under(t: Tree, dir: Path): set<Path> {
    set p | p in t && dir < p
  }

  lemma UnderShrinks(t: Tree, dir: Path, name: string)
    requires dir + [name] in t
    ensures |Under(t, dir + [name])| < |Under(t, dir)|
  {
    var child := dir + [name];
    assert Under(t, child) <= Under(t, dir) - {child} by {
      forall p | p in Under(t, child) ensures p in Under(t, dir) {
        assert dir <= child <= p;
      }
    }
    SmallerSet(Under(t, child), Under(t, dir), child);
  }

  lemma SmallerSet(a: set<Path>, b: set<Path>, x: Path)
    requires a <= b - {x} && x in b
    ensures |a| < |b|
  {
    SubsetSize(a, b - {x});
  }

  lemma {:induction false} SubsetSize(a: set<Path>, b: set<Path>)
    requires a <= b
    ensures |a| <= |b|
    decreases |a|
  {
    if a != {} {
      var x :| x in a;
      SubsetSize(a - {x}, b - {x});
    }
  }

  /** One entry's directory is the one walked, or was found before it. */
  ghost predicate ParentBefore(dir: Path, found: seq<Path>, i: nat)
    requires i < |found|
  {
    dir < found[i] && (Parent(found[i]) == dir || Parent(found[i]) in found[..i])
  }

  /** A directory is found before anything in it. */
  ghost predicate ParentsFirst(dir: Path, found: seq<Path>) {
    forall i | 0 <= i < |found| :: ParentBefore(dir, found, i)
  }

  /** What a walk of one directory has found once it is done with some of the names in it. */
  ghost predicate FoundIn(t: Tree, skip: Skip, dir: Path, names: seq<string>, found: seq<Path>) {
    && Distinct(found) && ParentsFirst(dir, found)
    && forall p :: p in found <==> ReachedFrom(t, skip, dir, p) && p[|dir|] in names
  }

  method Visit(t: Tree, skip: Skip, dir: Path) returns (found: seq<Path>)
    requires Sound(t)
    ensures Distinct(found) && ParentsFirst(dir, found)
    ensures forall p :: p in found <==> ReachedFrom(t, skip, dir, p)
    decreases |Under(t, dir)|
  {
    hide ReachedFrom, ParentsFirst, Distinct;
    var names := ReadDirectory(t, dir);
    found := [];
    NothingFound(t, skip, dir);
    for i := 0 to |names|
      invariant FoundIn(t, skip, dir, names[..i], found)
    {
      var entry := dir + [names[i]];
      assert names[i] in names;
      if skip(entry, t[entry]) {
        SkippedEntry(t, skip, dir, names, i, found);
        continue;
      }
      if t[entry].Directory? {
        UnderShrinks(t, dir, names[i]);
        var inside := Visit(t, skip, entry);
        EnteredEntry(t, skip, dir, names, i, found, inside);
        found := found + [entry] + inside;
      } else {
        LeafEntry(t, skip, dir, names[i]);
        EnteredEntry(t, skip, dir, names, i, found, []);
        assert found + [entry] + [] == found + [entry];
        found := found + [entry];
      }
    }
    assert names[..|names|] == names;
    AllNames(t, skip, dir, names);
  }

  /** Every entry under the root that nothing on the way to it is skipped for, each once. */
  method Walk(t: Tree, skip: Skip) returns (found: seq<Path>)
    requires Sound(t)
    ensures Distinct(found) && ParentsFirst([], found)
    ensures forall p :: p in found <==> Reached(t, skip, p)
  {
    found := Visit(t, skip, []);
  }

  lemma NothingFound(t: Tree, skip: Skip, dir: Path)
    ensures FoundIn(t, skip, dir, [], [])
  {
  }

  lemma AllNames(t: Tree, skip: Skip, dir: Path, names: seq<string>)
    requires Sound(t) && forall n :: n in names <==> dir + [n] in t
    ensures forall p | ReachedFrom(t, skip, dir, p) :: p[|dir|] in names
  {
    forall p | ReachedFrom(t, skip, dir, p) ensures p[|dir|] in names {
      assert Passes(t, skip, p[..|dir| + 1]);
      assert p[..|dir| + 1] == dir + [p[|dir|]];
    }
  }

  lemma SkippedEntry(t: Tree, skip: Skip, dir: Path, names: seq<string>, i: nat, found: seq<Path>)
    requires i < |names| && dir + [names[i]] in t && skip(dir + [names[i]], t[dir + [names[i]]])
    requires FoundIn(t, skip, dir, names[..i], found)
    ensures FoundIn(t, skip, dir, names[..i + 1], found)
  {
    forall p | ReachedFrom(t, skip, dir, p) ensures p[|dir|] != names[i] {
      assert Passes(t, skip, p[..|dir| + 1]);
      assert p[..|dir| + 1] == dir + [p[|dir|]];
    }
  }

  /** Nothing lies below an entry that is not a directory. */
  lemma LeafEntry(t: Tree, skip: Skip, dir: Path, name: string)
    requires Sound(t) && dir + [name] in t && !t[dir + [name]].Directory?
    ensures Distinct<Path>([]) && ParentsFirst(dir + [name], [])
    ensures forall p :: !ReachedFrom(t, skip, dir + [name], p)
  {
    forall p ensures !(dir + [name] < p && p in t) {
      if dir + [name] < p && p in t { NothingBelow(t, dir + [name], p); }
    }
  }

  lemma {:induction false} NothingBelow(t: Tree, leaf: Path, p: Path)
    requires Sound(t) && leaf != [] && leaf in t && !t[leaf].Directory? && leaf < p && p in t
    ensures false
    decreases |p|
  {
    assert IsDirectory(t, Parent(p));
    if Parent(p) != leaf {
      assert leaf < Parent(p);
      NothingBelow(t, leaf, Parent(p));
    }
  }

  /** Reaching below a directory from above it: through the child, then on from there. */
  lemma ReachedThrough(t: Tree, skip: Skip, dir: Path, name: string, p: Path)
    requires Passes(t, skip, dir + [name])
    ensures ReachedFrom(t, skip, dir, p) && p[|dir|] == name
       <==> p == dir + [name] || ReachedFrom(t, skip, dir + [name], p)
  {
    var child := dir + [name];
    if ReachedFrom(t, skip, dir, p) && p[|dir|] == name {
      assert p[..|dir| + 1] == child;
      assert child <= p;
    }
    if p == child {
      assert forall k | |dir| < k <= |p| :: p[..k] == child;
    }
    if ReachedFrom(t, skip, child, p) {
      assert p[..|dir| + 1] == child;
      assert dir <= child < p && p[|dir|] == name;
      forall k | |dir| < k <= |p| ensures Passes(t, skip, p[..k]) {
        if k == |dir| + 1 { assert p[..k] == child; }
      }
    }
  }

  lemma EnteredEntry(t: Tree, skip: Skip, dir: Path, names: seq<string>, i: nat, found: seq<Path>, inside: seq<Path>)
    requires i < |names| && Distinct(names) && Passes(t, skip, dir + [names[i]])
    requires FoundIn(t, skip, dir, names[..i], found)
    requires Distinct(inside) && ParentsFirst(dir + [names[i]], inside)
    requires forall p :: p in inside <==> ReachedFrom(t, skip, dir + [names[i]], p)
    ensures FoundIn(t, skip, dir, names[..i + 1], found + [dir + [names[i]]] + inside)
  {
    hide ReachedFrom, ParentsFirst;
    var entry := dir + [names[i]];
    var all := found + [entry] + inside;
    ReachedBelow(t, skip, dir);
    forall p ensures p in all <==> ReachedFrom(t, skip, dir, p) && p[|dir|] in names[..i + 1] {
      ReachedThrough(t, skip, dir, names[i], p);
      assert names[..i + 1] == names[..i] + [names[i]];
    }
    assert names[i] !in names[..i];
    forall p | p in found ensures p != entry && p !in inside {
      ReachedThrough(t, skip, dir, names[i], p);
    }
    assert entry !in inside by { ReachedBelow(t, skip, entry); }
    DistinctParts(found, entry, inside);
    ParentsParts(dir, names[i], found, inside);
  }

  lemma ReachedBelow(t: Tree, skip: Skip, dir: Path)
    ensures forall p | ReachedFrom(t, skip, dir, p) :: dir < p
  {
  }

  lemma DistinctParts(a: seq<Path>, x: Path, b: seq<Path>)
    requires Distinct(a) && Distinct(b) && x !in a && x !in b && forall p | p in a :: p !in b
    ensures Distinct(a + [x] + b)
  {
    var l := a + [x] + b;
    forall i, j | 0 <= i < j < |l| ensures l[i] != l[j] {
      if i < |a| <= j { assert l[i] in a; }
    }
  }

  lemma ParentsParts(dir: Path, name: string, a: seq<Path>, b: seq<Path>)
    requires ParentsFirst(dir, a) && ParentsFirst(dir + [name], b)
    ensures ParentsFirst(dir, a + [dir + [name]] + b)
  {
    var entry := dir + [name];
    var l := a + [entry] + b;
    forall i | 0 <= i < |l| ensures ParentBefore(dir, l, i) {
      if i < |a| {
        assert l[..i] == a[..i] && l[i] == a[i] && ParentBefore(dir, a, i);
      } else if i == |a| {
        assert l[i] == entry && dir < entry && Parent(entry) == dir;
      } else {
        assert ParentBefore(entry, b, i - |a| - 1);
        ParentInside(dir, name, a, b, i - |a| - 1);
      }
    }
  }

  lemma ParentInside(dir: Path, name: string, a: seq<Path>, b: seq<Path>, k: nat)
    requires k < |b| && ParentBefore(dir + [name], b, k)
    ensures ParentBefore(dir, a + [dir + [name]] + b, |a| + 1 + k)
  {
    var entry := dir + [name];
    var before := a + [entry] + b[..k];
    assert (a + [entry] + b)[..|a| + 1 + k] == before;
    assert dir <= entry;
    assert before[|a|] == entry;
  }

  // --- the copy ----------------------------------------------------------------------------------

  function BytesOf(n: Node): Option<Bytes> {
    match n
    case File(bytes) => Some(bytes)
    case Link(target) => target
    case _ => None
  }

  /** What a copy makes of a node: a directory, or a file with the bytes that reading it gives. */
  function CopyOf(n: Node): Option<Node> {
    if n.Directory? then Some(Directory)
    else if BytesOf(n).Some? then Some(File(BytesOf(n).value))
    else None
  }

  predicate Copyable(t: Tree, skip: Skip) {
    forall p | p in t && Reached(t, skip, p) :: CopyOf(t[p]).Some?
  }

  /** The kept part of a tree, copied. */
  function Copied(t: Tree, skip: Skip): Tree {
    map p | p in t && Reached(t, skip, p) && CopyOf(t[p]).Some? :: CopyOf(t[p]).value
  }

  /** A copy has directories and files only: a link becomes a file with the bytes read through it. */
  lemma CopiedExactly(t: Tree, skip: Skip, p: Path, n: Node)
    ensures p in Copied(t, skip) && Copied(t, skip)[p] == n
       <==> p in t && Reached(t, skip, p)
            && ((n.Directory? && t[p].Directory?) || (n.File? && t[p] in {File(n.bytes), Link(Some(n.bytes))}))
    ensures Copyable(t, skip) <==> forall q | q in t && Reached(t, skip, q) :: t[q] !in {Link(None), Special}
  {
    hide Reached;
  }

  /** A copy that has made the first entries of a walk. */
  ghost predicate Made(t: Tree, skip: Skip, entries: seq<Path>, to: Tree) {
    && Sound(to)
    && (forall p :: p in to <==> p in entries)
    && forall p | p in to :: p in t && Reached(t, skip, p) && CopyOf(t[p]) == Some(to[p])
  }

  /**
   * The copy, entry by entry in walk order; `faults` says which writes go wrong. Each entry is made
   * in a directory that is already there. A copy that fails leaves what it made so far.
   */
  method CopyTree(t: Tree, skip: Skip, faults: nat -> bool) returns (ok: bool, to: Tree)
    requires Sound(t)
    ensures Sound(to)
    ensures ok ==> Copyable(t, skip) && to == Copied(t, skip)
    ensures !ok ==> !Copyable(t, skip) || exists k :: faults(k)
    ensures !ok ==> forall p | p in to :: p in Copied(t, skip) && to[p] == Copied(t, skip)[p]
  {
    hide Reached, Sound, ParentsFirst, Distinct, Made, Copyable, Copied;
    to := map[];
    NothingMade(t, skip);
    MadeSoFar(t, skip, [], to);
    if faults(0) {
      return false, to;
    }
    var entries := Walk(t, skip);
    for i := 0 to |entries|
      invariant Made(t, skip, entries[..i], to)
    {
      var p := entries[i];
      assert p in entries;
      ReachedIn(t, skip, p);
      MadeSoFar(t, skip, entries[..i], to);
      var made := CopyOf(t[p]);
      if made.None? || faults(i + 1) {
        if made.None? { NotCopyable(t, skip, p); }
        return false, to;
      }
      MadeNext(t, skip, entries, i, to);
      to := to[p := made.value];
    }
    assert entries[..|entries|] == entries;
    MadeSoFar(t, skip, entries, to);
    AllMade(t, skip, entries, to);
    ok := true;
  }

  lemma ReachedIn(t: Tree, skip: Skip, p: Path)
    requires Reached(t, skip, p)
    ensures p in t
  {
  }

  lemma NothingMade(t: Tree, skip: Skip)
    ensures Made(t, skip, [], map[])
  {
  }

  lemma NotCopyable(t: Tree, skip: Skip, p: Path)
    requires p in t && Reached(t, skip, p) && CopyOf(t[p]).None?
    ensures !Copyable(t, skip)
  {
  }

  lemma MadeSoFar(t: Tree, skip: Skip, entries: seq<Path>, to: Tree)
    requires Made(t, skip, entries, to)
    ensures Sound(to)
    ensures forall p | p in to :: p in Copied(t, skip) && to[p] == Copied(t, skip)[p]
  {
    hide Reached, Sound;
  }

  /** When an entry's turn comes, the directory it goes into has been made. */
  lemma MadeNext(t: Tree, skip: Skip, entries: seq<Path>, i: nat, to: Tree)
    requires Sound(t) && ParentsFirst([], entries) && i < |entries|
    requires entries[i] in t && Reached(t, skip, entries[i]) && CopyOf(t[entries[i]]).Some?
    requires Made(t, skip, entries[..i], to)
    ensures IsDirectory(to, Parent(entries[i]))
    ensures Made(t, skip, entries[..i + 1], to[entries[i] := CopyOf(t[entries[i]]).value])
  {
    hide Reached;
    var p := entries[i];
    var next := to[p := CopyOf(t[p]).value];
    assert ParentBefore([], entries, i);
    assert IsDirectory(t, Parent(p));
    assert entries[..i + 1] == entries[..i] + [p];
    forall q | q in next ensures q != [] && IsDirectory(next, Parent(q)) {
      if q != p {
        assert q in to && IsDirectory(to, Parent(q));
        if Parent(q) == p { assert p in to; }
      } else if Parent(p) != [] {
        assert Parent(p) in to && CopyOf(t[Parent(p)]) == Some(to[Parent(p)]);
      }
    }
  }

  lemma AllMade(t: Tree, skip: Skip, entries: seq<Path>, to: Tree)
    requires Made(t, skip, entries, to) && forall p :: p in entries <==> Reached(t, skip, p)
    ensures Copyable(t, skip) && to == Copied(t, skip)
  {
    hide Reached, Sound;
  }
}
