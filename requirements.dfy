/** parseRequirements in main.go: each line of the pin file is classified and
    matched against ^\s*([a-zA-Z0-9_\-]+)(?:\s*==\s*([^\s]+))? and the matches
    are collected into a map from package name to pinned version. The two fixed
    patterns of main.go are matched by hand, character by character, with Go's
    leftmost-first (greedy) semantics. */
module Requirements {
  import opened Wrappers
  import opened Text

  /** One match of the declaration pattern: the captured name and the captured
      version, "" when the optional `==version` group did not take part. */
  datatype Pin = Pin(name: string, version: string)

  /** A non-empty run of [a-zA-Z0-9_\-]. */
  ghost predicate IsNameToken(s: string) {
    s != [] && forall k :: 0 <= k < |s| ==> IsNameChar(s[k])
  }

  /** The anchored prefix ^\s*([a-zA-Z0-9_\-]+) matches `line` with the name
      captured at line[i..j]: `\s` characters before `i`, name characters from
      `i` to `j`, and no name character right after (the greedy `+` takes the
      whole run). */
  ghost predicate NameAt(line: string, i: nat, j: nat) {
    && i < j <= |line|
    && (forall k :: 0 <= k < i ==> IsReSpace(line[k]))
    && (forall k :: i <= k < j ==> IsNameChar(line[k]))
    && (j == |line| || !IsNameChar(line[j]))
  }

  /** The optional group (?:\s*==\s*([^\s]+)), tried at position `j` of `line`
      (just after the name), matches with the version captured at line[b..e]:
      `\s` characters from `j` to `a`, `==` at `a`, `\s` characters up to `b`,
      then a non-empty run of non-`\s` characters that the greedy `+` extends up
      to a `\s` or the end. */
  ghost predicate VersionAt(line: string, j: nat, a: nat, b: nat, e: nat) {
    && j <= a && a + 2 <= b < e <= |line|
    && (forall k :: j <= k < a ==> IsReSpace(line[k]))
    && line[a] == '=' && line[a + 1] == '='
    && (forall k :: a + 2 <= k < b ==> IsReSpace(line[k]))
    && (forall k :: b <= k < e ==> IsNotReSpace(line[k]))
    && (e == |line| || IsReSpace(line[e]))
  }

  /** How many characters the leading `^\s*` consumes. */
  function LeadLength(line: string): nat {
    SpanFrom(line, 0, IsReSpace)
  }

  /** Capture group 1 of either pattern in main.go (lines 43 and 154), or None
      when the pattern does not match. */
  function LeadingName(line: string): Option<string> {
    var i := LeadLength(line);
    var j := SpanFrom(line, i, IsNameChar);
    if j == i then None else Some(line[i..j])
  }

  /** What LeadingName captures is a match of the name pattern. */
  lemma LeadingNameMatch(line: string)
    requires LeadingName(line).Some?
    ensures var i := LeadLength(line); var name := LeadingName(line).value;
      NameAt(line, i, i + |name|) && name == line[i..i + |name|] && IsNameToken(name)
  {
    var i := LeadLength(line);
    var name := LeadingName(line).value;
    ClassesDisjoint(line[i]);
    forall k | 0 <= k < |name| ensures IsNameChar(name[k]) {
      assert name[k] == line[i + k];
    }
  }

  /** The match is unique: wherever the name pattern can capture line[i..j],
      LeadingName captures exactly that. */
  lemma NameAtUnique(line: string, i: nat, j: nat)
    requires NameAt(line, i, j)
    ensures LeadLength(line) == i
    ensures LeadingName(line) == Some(line[i..j])
  {
    ClassesDisjoint(line[i]);
    SpanFromUnique(line, 0, IsReSpace, i);
    SpanFromUnique(line, i, IsNameChar, j);
  }

  /** Capture group 2 of the declaration pattern, tried at position `j` just
      after the name: the version after `\s*==\s*`, or "" when the optional
      group does not match (including `name==` with nothing after it). */
  function VersionGroup(line: string, j: nat): string
    requires j <= |line|
  {
    var a := SpanFrom(line, j, IsReSpace);
    if a + 2 <= |line| && line[a] == '=' && line[a + 1] == '=' then
      var b := SpanFrom(line, a + 2, IsReSpace);
      var e := SpanFrom(line, b, IsNotReSpace);
      line[b..e]
    else
      []
  }

  /** A non-empty VersionGroup is a match of the optional group: after the
      `\s` run from `j` comes `==`, then a `\s` run and the version. */
  lemma VersionGroupMatch(line: string, j: nat)
    requires j <= |line| && VersionGroup(line, j) != []
    ensures var v := VersionGroup(line, j);
      var a := SpanFrom(line, j, IsReSpace);
      a + 2 <= |line| &&
      var b := SpanFrom(line, a + 2, IsReSpace);
      VersionAt(line, j, a, b, b + |v|) && v == line[b..b + |v|]
  {
    var a := SpanFrom(line, j, IsReSpace);
    var b := SpanFrom(line, a + 2, IsReSpace);
    var e := SpanFrom(line, b, IsNotReSpace);
    assert VersionGroup(line, j) == line[b..e];
  }

  /** The version group is unique: wherever the optional group can capture
      line[b..e], VersionGroup captures exactly that. Since a capture is never
      empty, VersionGroup(line, j) == "" exactly when the group cannot match. */
  lemma VersionAtUnique(line: string, j: nat, a: nat, b: nat, e: nat)
    requires VersionAt(line, j, a, b, e)
    ensures VersionGroup(line, j) == line[b..e]
  {
    SpanFromUnique(line, j, IsReSpace, a);
    SpanFromUnique(line, a + 2, IsReSpace, b);
    SpanFromUnique(line, b, IsNotReSpace, e);
  }

  /** The skip test at main.go:47: a line starting with `#` (before any trimming)
      or one that trims to empty. */
  predicate SkippedByParser(line: string) {
    HasPrefix(line, "#") || TrimSpace(line) == []
  }

  /** The classification at main.go:158-160 (shared with the rewriter): after
      TrimSpace the line is empty or starts with `#`. */
  predicate IsCommentOrBlank(line: string) {
    var t := TrimSpace(line);
    HasPrefix(t, "#") || t == []
  }

  /** One iteration of the loop at main.go:45-59: None for a skipped or
      non-matching line, otherwise the captured name and version. */
  function ParseLine(line: string): Option<Pin> {
    if SkippedByParser(line) then None
    else
      match LeadingName(line)
      case None => None
      case Some(name) => Some(Pin(name, VersionGroup(line, LeadLength(line) + |name|)))
  }

  /** A recorded line is a match of the declaration pattern: the name is
      captured after the leading `\s` run and the version is the optional
      group tried right after the name. */
  lemma ParseLineMatch(line: string)
    requires ParseLine(line).Some?
    ensures var i := LeadLength(line); var p := ParseLine(line).value;
      var j := i + |p.name|;
      && NameAt(line, i, j) && p.name == line[i..j]
      && p.version == VersionGroup(line, j)
  {
    var p := ParseLine(line).value;
    assert !SkippedByParser(line);
    assert LeadingName(line) == Some(p.name);
    LeadingNameMatch(line);
  }

  /** The parser's raw-`#` test is subsumed by the rewriter's trimmed test:
      every line the parser skips, the rewriter keeps as a comment or blank
      line. */
  lemma SkippedIsCommentOrBlank(line: string)
    ensures SkippedByParser(line) ==> IsCommentOrBlank(line)
  {
    TrimSpaceMiddle(line);
    if HasPrefix(line, "#") {
      SpanFromUnique(line, 0, IsSpace, 0);
    }
  }

  /** A line the name pattern matches is neither skipped by the parser nor kept
      as a comment or blank line by the rewriter. */
  lemma NamedLineIsNotComment(line: string)
    ensures LeadingName(line).Some? ==> !SkippedByParser(line) && !IsCommentOrBlank(line)
  {
    if LeadingName(line).Some? {
      LeadingNameMatch(line);
      var i := LeadLength(line);
      ClassesDisjoint(line[i]);
      ClassesDisjoint(line[0]);
      forall k | 0 <= k < i ensures IsSpace(line[k]) {
        ClassesDisjoint(line[k]);
      }
      SpanFromUnique(line, 0, IsSpace, i);
      TrimSpaceMiddle(line);
      assert TrimSpace(line)[0] == line[i];
    }
  }

  /** Every line the name pattern matches is recorded, with the name it captures
      and the version its optional group captures in the rest of the line. */
  lemma ParseLineDeclaration(line: string, i: nat, j: nat)
    requires NameAt(line, i, j)
    ensures ParseLine(line) == Some(Pin(line[i..j], VersionGroup(line, j)))
  {
    NameAtUnique(line, i, j);
    NamedLineIsNotComment(line);
  }

  /** Lines whose first non-white-space character is `#`, and white-space-only
      lines, add no entry: the raw-`#` test of main.go:47 together with the
      failing match of main.go:50 skip every line the rewriter treats as a
      comment. */
  lemma ParseLineSkipsComments(line: string)
    requires IsCommentOrBlank(line)
    ensures ParseLine(line) == None
  {
    NamedLineIsNotComment(line);
  }

  /** `line` is a declaration of `name`. */
  predicate Declares(line: string, name: string) {
    ParseLine(line).Some? && ParseLine(line).value.name == name
  }

  /** The map built by the loop at main.go:45-59 over `lines`; a later line
      overwrites the entry of an earlier one with the same name. */
  function Packages(lines: seq<string>): map<string, string> {
    if lines == [] then map[]
    else
      var m := Packages(lines[..|lines| - 1]);
      match ParseLine(lines[|lines| - 1])
      case None => m
      case Some(p) => m[p.name := p.version]
  }

  /** One more line updates the map as one iteration of the loop does. */
  lemma PackagesAppend(lines: seq<string>, line: string)
    ensures Packages(lines + [line]) ==
      match ParseLine(line)
      case None => Packages(lines)
      case Some(p) => Packages(lines)[p.name := p.version]
  {
    assert (lines + [line])[..|lines|] == lines;
  }

  /** A name is a key of the parsed map exactly when some line declares it. */
  lemma {:induction false} PackagesKeys(lines: seq<string>, name: string)
    ensures name in Packages(lines) <==> exists i :: 0 <= i < |lines| && Declares(lines[i], name)
  {
    if lines != [] {
      var init := lines[..|lines| - 1];
      PackagesKeys(init, name);
      if name in Packages(lines) && name !in Packages(init) {
        assert Declares(lines[|lines| - 1], name);
      }
      if i :| 0 <= i < |lines| && Declares(lines[i], name) {
        if i < |lines| - 1 {
          assert Declares(init[i], name);
        }
      }
      if i :| 0 <= i < |init| && Declares(init[i], name) {
        assert Declares(lines[i], name);
      }
    }
  }

  /** Last occurrence wins: the entry of a declared name is the version on the
      last line that declares it. */
  lemma {:induction false} PackagesLastWins(lines: seq<string>, i: nat)
    requires i < |lines| && ParseLine(lines[i]).Some?
    requires forall j :: i < j < |lines| ==> !Declares(lines[j], ParseLine(lines[i]).value.name)
    ensures var p := ParseLine(lines[i]).value;
      p.name in Packages(lines) && Packages(lines)[p.name] == p.version
  {
    var init := lines[..|lines| - 1];
    if i < |lines| - 1 {
      assert !Declares(lines[|lines| - 1], ParseLine(lines[i]).value.name);
      assert init[i] == lines[i];
      PackagesLastWins(init, i);
    }
  }

  /** The name a line declares is the name LeadingName captures, a run of name
      characters. */
  lemma DeclaredName(line: string, name: string)
    requires Declares(line, name)
    ensures IsNameToken(name)
    ensures LeadingName(line) == Some(name)
  {
    assert !SkippedByParser(line);
    assert LeadingName(line) == Some(name);
    LeadingNameMatch(line);
  }

  /** Every key of the parsed map is a non-empty run of name characters that
      the name pattern captures at the start of some line, after its leading
      `\s` characters. */
  lemma PackagesNames(lines: seq<string>, name: string)
    requires name in Packages(lines)
    ensures IsNameToken(name)
    ensures exists i :: 0 <= i < |lines| && LeadingName(lines[i]) == Some(name)
  {
    PackagesKeys(lines, name);
    var i :| 0 <= i < |lines| && Declares(lines[i], name);
    DeclaredName(lines[i], name);
  }

  /** The loop of parseRequirements (main.go:39-61) over already-split lines. */
  method ParseRequirements(lines: seq<string>) returns (packages: map<string, string>)
    ensures packages == Packages(lines)
  {
    packages := map[];
    var i := 0;
    while i < |lines|
      invariant 0 <= i <= |lines|
      invariant packages == Packages(lines[..i])
    {
      var line := lines[i];
      assert lines[..i + 1][..i] == lines[..i];
      if HasPrefix(line, "#") || TrimSpace(line) == [] {
        assert ParseLine(line) == None;
      } else {
        var matched := LeadingName(line);
        if matched.Some? {
          var name := matched.value;
          var version := VersionGroup(line, LeadLength(line) + |name|);
          assert ParseLine(line) == Some(Pin(name, version));
          packages := packages[name := version];
        }
      }
      i := i + 1;
    }
    assert lines[..i] == lines;
  }

}
