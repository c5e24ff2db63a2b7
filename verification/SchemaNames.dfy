/** How a cube's name becomes a schema name, and when the way back used for outbox rows is right. */
module SchemaNames {

  /** Every slash becomes two dashes. */
  function SchemaName(cube: string): string {
    if cube == "" then "" else (if cube[0] == '/' then "--" else [cube[0]]) + SchemaName(cube[1..])
  }

  /** Every pair of dashes, from the left, becomes a slash. */
  function CubeName(schema: string): string {
    if |schema| >= 2 && schema[0] == '-' && schema[1] == '-' then "/" + CubeName(schema[2..])
    else if schema == "" then ""
    else [schema[0]] + CubeName(schema[1..])
  }

  /** A dash followed by a dash or by a slash: `--` or `-/`. */
  predicate Ambiguous(cube: string) {
    exists i :: 0 <= i < |cube| - 1 && cube[i] == '-' && cube[i + 1] in {'-', '/'}
  }

  lemma AmbiguousTail(cube: string)
    requires cube != ""
    ensures Ambiguous(cube) <==> (|cube| >= 2 && cube[0] == '-' && cube[1] in {'-', '/'}) || Ambiguous(cube[1..])
  {
    var tail := cube[1..];
    if i :| 0 <= i < |cube| - 1 && cube[i] == '-' && cube[i + 1] in {'-', '/'} {
      if i > 0 { assert tail[i - 1] == '-' && tail[i - 1 + 1] in {'-', '/'}; }
    }
    if i :| 0 <= i < |tail| - 1 && tail[i] == '-' && tail[i + 1] in {'-', '/'} {
      assert cube[i + 1] == '-' && cube[i + 1 + 1] in {'-', '/'};
    }
  }

  lemma SpelledNames()
    ensures SchemaName("/b") == "--b" && SchemaName("-/b") == "---b" && SchemaName("/-b") == "---b"
    ensures SchemaName("-b") == "-b" && SchemaName("--b") == "--b"
  {
    assert SchemaName("b") == "b";
  }

  lemma ReadName()
    ensures CubeName("a---b") == "a/-b"
  {
    assert CubeName("b") == "b";
    assert CubeName("-b") == "-b";
    assert "---b"[2..] == "-b" && CubeName("---b") == "/-b";
    assert "a---b"[1..] == "---b";
  }

  /** Two names that collide under the mapping, and a name the way back spells differently. */
  lemma CollidingNames()
    ensures SchemaName("a-/b") == SchemaName("a/-b")
    ensures SchemaName("a--b") == SchemaName("a/b")
    ensures CubeName(SchemaName("a-/b")) == "a/-b"
    ensures SchemaName("a/b") == "a--b"
  {
    SpelledNames();
    ReadName();
    assert SchemaName("a-/b") == "a---b";
    assert SchemaName("a/-b") == "a---b";
    assert SchemaName("a--b") == "a--b";
    assert SchemaName("a/b") == "a--b";
  }

  lemma {:induction false} SchemaNameLonger(cube: string)
    ensures |SchemaName(cube)| >= |cube|
  {
    if cube != "" { SchemaNameLonger(cube[1..]); }
  }

  /** The cube name read off a schema is the cube's, exactly when no dash precedes a dash or a slash. */
  lemma {:induction false} CubeNameRoundTrip(cube: string)
    ensures CubeName(SchemaName(cube)) == cube <==> !Ambiguous(cube)
    decreases |cube|
  {
    if cube != "" {
      var tail := cube[1..];
      AmbiguousTail(cube);
      CubeNameRoundTrip(tail);
      var s := SchemaName(tail);
      assert cube == [cube[0]] + tail;
      if cube[0] == '/' {
        assert SchemaName(cube) == "--" + s;
        assert ("--" + s)[2..] == s;
        assert CubeName(SchemaName(cube)) == "/" + CubeName(s);
      } else if cube[0] == '-' && tail != "" && tail[0] in {'-', '/'} {
        // Two dashes lead the schema name, so the way back starts with a slash.
        assert SchemaName(cube) == "-" + s;
        assert s[0] == '-';
        assert CubeName(SchemaName(cube))[0] == '/';
      } else {
        assert SchemaName(cube) == [cube[0]] + s;
        assert s != "" ==> tail != "" && (s[0] == tail[0] || tail[0] == '/');
        assert ([cube[0]] + s)[1..] == s;
        assert CubeName(SchemaName(cube)) == [cube[0]] + CubeName(s);
      }
    }
  }

  /** So no two such names share a schema. */
  lemma SchemaNameInjective(a: string, b: string)
    requires !Ambiguous(a) && !Ambiguous(b)
    ensures SchemaName(a) == SchemaName(b) <==> a == b
  {
    CubeNameRoundTrip(a);
    CubeNameRoundTrip(b);
  }
}
