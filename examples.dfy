/** Worked examples on concrete pin files: the file foo==1.0, # comment, bar
    with foo and bar released at 1.2 and 2.0, a lookup that fails, and the
    corner cases of the declaration pattern at main.go:43. */
module Examples {
  import opened Wrappers
  import opened Text
  import opened Requirements
  import opened Fetch
  import opened Rewrite
  import opened Upgrade

  /** The registry of the first worked example: foo and bar have new releases. */
  function ExampleRegistry(name: string): Option<string> {
    if name == "foo" then Some("1.2") else if name == "bar" then Some("2.0") else None
  }

  /** The pinned line of the worked example declares foo at 1.0. */
  lemma ExamplePinnedLine()
    ensures ParseLine("foo==1.0") == Some(Pin("foo", "1.0"))
  {
    var line := "foo==1.0";
    assert NameAt(line, 0, 3) && line[0..3] == "foo";
    assert VersionAt(line, 3, 3, 5, 8) && line[5..8] == "1.0";
    VersionAtUnique(line, 3, 3, 5, 8);
    ParseLineDeclaration(line, 0, 3);
  }

  /** The comment line of the worked example is skipped. */
  lemma ExampleCommentLine()
    ensures IsCommentOrBlank("# comment")
    ensures ParseLine("# comment") == None
  {
    SpanFromUnique("# comment", 0, IsSpace, 0);
    ParseLineSkipsComments("# comment");
  }

  /** The unpinned line of the worked example declares bar without a version. */
  lemma ExampleUnpinnedLine()
    ensures ParseLine("bar") == Some(Pin("bar", ""))
  {
    var line := "bar";
    assert NameAt(line, 0, 3) && line[0..3] == "bar";
    assert SpanFrom(line, 3, IsReSpace) == 3;
    assert VersionGroup(line, 3) == "";
    ParseLineDeclaration(line, 0, 3);
  }

  /** The first two lines of the worked example give foo at 1.0. */
  lemma ExampleParseFirstTwo()
    ensures Packages(["foo==1.0", "# comment"]) == map["foo" := "1.0"]
  {
    assert Packages(["foo==1.0"]) == map["foo" := "1.0"] by {
      ExamplePinnedLine();
      PackagesAppend([], "foo==1.0");
      assert [] + ["foo==1.0"] == ["foo==1.0"];
    }
    ExampleCommentLine();
    PackagesAppend(["foo==1.0"], "# comment");
    assert ["foo==1.0"] + ["# comment"] == ["foo==1.0", "# comment"];
  }

  /** The parser reads foo at 1.0 from the pinned line, skips the comment and
      reads bar without a version. */
  lemma ExampleParse()
    ensures Packages(["foo==1.0", "# comment", "bar"]) == map["foo" := "1.0", "bar" := ""]
  {
    ExampleParseFirstTwo();
    ExampleUnpinnedLine();
    PackagesAppend(["foo==1.0", "# comment"], "bar");
    assert ["foo==1.0", "# comment"] + ["bar"] == ["foo==1.0", "# comment", "bar"];
  }

  /** The latest versions of the worked example. */
  function ExampleLatest(): map<string, string> {
    map["foo" := "1.2", "bar" := "2.0"]
  }

  /** The rewriter sees the pinned line of the worked example as a
      declaration of foo. */
  lemma ExamplePinnedName()
    ensures !IsCommentOrBlank("foo==1.0")
    ensures LeadingName("foo==1.0") == Some("foo")
  {
    var line := "foo==1.0";
    assert NameAt(line, 0, 3) && line[0..3] == "foo";
    NameAtUnique(line, 0, 3);
    NamedLineIsNotComment(line);
  }

  /** The pinned line of the worked example becomes foo==1.2. */
  lemma ExampleRewritePinned()
    ensures RewriteLine("foo==1.0", ExampleLatest()) == "foo==1.2"
  {
    ExamplePinnedName();
    var latest := ExampleLatest();
    assert "foo" in latest && latest["foo"] == "1.2";
    assert RewriteLine("foo==1.0", latest) == "foo" + "==" + latest["foo"];
    assert "foo" + "==" + "1.2" == "foo==1.2";
  }

  /** The unpinned line of the worked example becomes bar==2.0. */
  lemma ExampleRewriteUnpinned()
    ensures RewriteLine("bar", ExampleLatest()) == "bar==2.0"
  {
    var line, latest := "bar", ExampleLatest();
    assert NameAt(line, 0, 3);
    NameAtUnique(line, 0, 3);
    NamedLineIsNotComment(line);
    assert line[0..3] == "bar";
    assert LeadingName(line) == Some("bar");
    assert "bar" in latest && latest["bar"] == "2.0";
  }


  /** With foo at 1.2 and bar at 2.0, both declarations are rewritten and the
      comment stays. */
  lemma ExampleRewrite()
    ensures Rewritten(["foo==1.0", "# comment", "bar"], ExampleLatest())
      == ["foo==1.2", "# comment", "bar==2.0"]
  {
    var r := Rewritten(["foo==1.0", "# comment", "bar"], ExampleLatest());
    assert r[0] == "foo==1.2" by {
      ExampleRewritePinned();
    }
    assert r[1] == "# comment" by {
      ExampleCommentLine();
    }
    assert r[2] == "bar==2.0" by {
      ExampleRewriteUnpinned();
    }
  }

  /** The registry of the worked example answers for both foo and bar. */
  lemma ExampleRegistryAnswers()
    ensures FetchResult({"foo", "bar"}, ExampleRegistry) == ExampleLatest()
  {
  }

  /** Of the names the parser records, the registry of the worked example
      answers for both. */
  lemma ExampleFetch()
    ensures FetchResult(Packages(["foo==1.0", "# comment", "bar"]).Keys, ExampleRegistry) == ExampleLatest()
  {
    ExampleParse();
    ExampleRegistryAnswers();
  }

  /** The updated lines of the worked example, written out. */
  lemma ExampleRendered()
    ensures Rendered(["foo==1.2", "# comment", "bar==2.0"]) == "foo==1.2\n# comment\nbar==2.0\n"
  {
    var updated := ["foo==1.2", "# comment", "bar==2.0"];
    assert updated[1..][1..][1..] == [];
  }

  /** End to end: foo==1.0, a comment and bar, with foo and bar released at 1.2
      and 2.0, give the file "foo==1.2\n# comment\nbar==2.0\n". */
  lemma ExampleUpgrade()
    ensures UpgradedFile(["foo==1.0", "# comment", "bar"], ExampleRegistry)
      == "foo==1.2\n# comment\nbar==2.0\n"
  {
    ExampleFetch();
    ExampleRewrite();
    ExampleRendered();
  }

  /** A registry on which every lookup fails, as for a package it does not know. */
  function FailingRegistry(name: string): Option<string> {
    None
  }

  /** A pin whose lookup fails stays as it was. */
  lemma ExampleFailedLookup()
    ensures UpgradedFile(["baz==0.1"], FailingRegistry) == "baz==0.1\n"
  {
    AllLookupsFailKeepsFile(["baz==0.1"], FailingRegistry);
  }

  /** A dotted name is cut at the dot, since `.` is not in the name class, and
      the optional `==version` group cannot start at the dot. */
  lemma ParseDottedName()
    ensures ParseLine("zope.interface==5") == Some(Pin("zope", ""))
  {
    var line := "zope.interface==5";
    assert line[4] == '.';
    assert NameAt(line, 0, 4) && line[0..4] == "zope";
    assert SpanFrom(line, 4, IsReSpace) == 4;
    ParseLineDeclaration(line, 0, 4);
  }

  /** A range specifier records the name without a version. */
  lemma ParseRangeSpecifier()
    ensures ParseLine("foo >= 1") == Some(Pin("foo", ""))
  {
    var line := "foo >= 1";
    assert NameAt(line, 0, 3) && line[0..3] == "foo";
    assert SpanFrom(line, 4, IsReSpace) == 4;
    assert SpanFrom(line, 3, IsReSpace) == 4;
    assert VersionGroup(line, 3) == "";
    ParseLineDeclaration(line, 0, 3);
  }

  /** White space around `==` is allowed. */
  lemma ParseSpacedPin()
    ensures ParseLine("foo == 1.0") == Some(Pin("foo", "1.0"))
  {
    var line := "foo == 1.0";
    assert NameAt(line, 0, 3) && line[0..3] == "foo";
    assert VersionAt(line, 3, 4, 7, 10) && line[7..10] == "1.0";
    VersionAtUnique(line, 3, 4, 7, 10);
    ParseLineDeclaration(line, 0, 3);
  }

  /** `foo==` records foo without a version: the version needs at least one
      character. */
  lemma ParseEmptyPin()
    ensures ParseLine("foo==") == Some(Pin("foo", ""))
  {
    var line := "foo==";
    assert NameAt(line, 0, 3) && line[0..3] == "foo";
    assert SpanFrom(line, 3, IsReSpace) == 3;
    assert SpanFrom(line, 5, IsReSpace) == 5;
    assert SpanFrom(line, 5, IsNotReSpace) == 5;
    assert VersionGroup(line, 3) == "";
    ParseLineDeclaration(line, 0, 3);
  }

  /** An indented comment passes the raw-`#` test of the parser but the name
      pattern fails on it; the rewriter keeps it whatever the map. */
  lemma IndentedComment()
    ensures ParseLine("  # note") == None
    ensures RewriteLine("  # note", map["note" := "1"]) == "  # note"
  {
    var line := "  # note";
    assert SpanFrom(line, 0, IsSpace) == 2;
    TrimSpaceMiddle(line);
    assert TrimSpace(line)[0] == '#';
    assert IsCommentOrBlank(line);
    ParseLineSkipsComments(line);
  }

}
