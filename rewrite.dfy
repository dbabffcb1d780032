/** updateRequirements in main.go: every line of the pin file is kept, except
    that a line whose leading name (pattern ^\s*([a-zA-Z0-9_\-]+)(.*)) has a
    latest version becomes exactly `name==version`; the lines are then written
    out, each followed by a newline. The unused `packages` argument of
    updateRequirements is not a parameter here. */
module Rewrite {
  import opened Wrappers
  import opened Text
  import opened Requirements

  /** One iteration of the loop at main.go:156-177. */
  function RewriteLine(line: string, latest: map<string, string>): string {
    if IsCommentOrBlank(line) then line
    else
      match LeadingName(line)
      case Some(name) => if name in latest then name + "==" + latest[name] else line
      case None => line
  }

  /** Wherever the name pattern captures line[i..j], the line becomes
      `name==version` when the name has a latest version, dropping whatever
      followed the name, and is kept verbatim otherwise. */
  lemma RewriteDeclaration(line: string, i: nat, j: nat, latest: map<string, string>)
    requires NameAt(line, i, j)
    ensures var name := line[i..j];
      RewriteLine(line, latest) == if name in latest then name + "==" + latest[name] else line
  {
    NameAtUnique(line, i, j);
    NamedLineIsNotComment(line);
  }

  /** A line the parser records is replaced when, and only when, its name has a
      latest version. */
  lemma RewriteParsedLine(line: string, latest: map<string, string>)
    requires ParseLine(line).Some?
    ensures var name := ParseLine(line).value.name;
      RewriteLine(line, latest) == if name in latest then name + "==" + latest[name] else line
  {
    DeclaredName(line, ParseLine(line).value.name);
    NamedLineIsNotComment(line);
  }

  /** A line the parser skips or fails to match is kept verbatim by the
      rewriter, whatever the map: so the rewriter changes no line that the
      parser did not record. */
  lemma RewriteUnparsedLine(line: string, latest: map<string, string>)
    requires ParseLine(line).None?
    ensures RewriteLine(line, latest) == line
  {
    SkippedIsCommentOrBlank(line);
  }

  /** A rewritten line holds no newline when neither the line nor any latest
      version does. */
  lemma RewriteLineNoNewline(line: string, latest: map<string, string>)
    requires forall k :: 0 <= k < |line| ==> line[k] != '\n'
    requires forall name, k :: name in latest && 0 <= k < |latest[name]| ==> latest[name][k] != '\n'
    ensures forall k :: 0 <= k < |RewriteLine(line, latest)| ==> RewriteLine(line, latest)[k] != '\n'
  {
    var out := RewriteLine(line, latest);
    if out != line {
      var name := LeadingName(line).value;
      LeadingNameMatch(line);
      var version := latest[name];
      assert out == name + "==" + version;
      forall k | 0 <= k < |out| ensures out[k] != '\n' {
        if k < |name| {
          assert out[k] == line[LeadLength(line) + k];
        } else if k >= |name| + 2 {
          assert out[k] == version[k - |name| - 2];
        }
      }
    }
  }

  /** Rewriting a line twice with the same map is rewriting it once: a
      rewritten line `name==version` is itself a declaration of `name`. */
  lemma RewriteLineIdempotent(line: string, latest: map<string, string>)
    ensures RewriteLine(RewriteLine(line, latest), latest) == RewriteLine(line, latest)
  {
    var out := RewriteLine(line, latest);
    if out != line {
      var name := LeadingName(line).value;
      LeadingNameMatch(line);
      assert out == name + "==" + latest[name];
      assert NameAt(out, 0, |name|) by {
        assert out[|name|] == '=';
        ClassesDisjoint(out[|name|]);
        forall k | 0 <= k < |name| ensures IsNameChar(out[k]) {
          assert out[k] == line[LeadLength(line) + k];
        }
      }
      RewriteDeclaration(out, 0, |name|, latest);
      assert out[0..|name|] == name;
    }
  }

  /** The lines collected by the loop at main.go:156-177: one output line per
      input line, in the same order. */
  function Rewritten(lines: seq<string>, latest: map<string, string>): (r: seq<string>)
    ensures |r| == |lines|
    ensures forall i :: 0 <= i < |lines| ==> r[i] == RewriteLine(lines[i], latest)
  {
    if lines == [] then [] else [RewriteLine(lines[0], latest)] + Rewritten(lines[1..], latest)
  }

  /** With no latest versions the rewrite is the identity on the lines. */
  lemma RewrittenEmptyMap(lines: seq<string>)
    ensures Rewritten(lines, map[]) == lines
  {
    var none: map<string, string> := map[];
    var r := Rewritten(lines, none);
    forall i | 0 <= i < |lines| ensures r[i] == lines[i] {
      match LeadingName(lines[i]) {
        case None =>
        case Some(name) => assert name !in none;
      }
    }
  }

  /** Rewriting the rewritten file with the same map changes nothing. */
  lemma RewrittenIdempotent(lines: seq<string>, latest: map<string, string>)
    ensures Rewritten(Rewritten(lines, latest), latest) == Rewritten(lines, latest)
  {
    var once := Rewritten(lines, latest);
    forall i | 0 <= i < |lines| ensures Rewritten(once, latest)[i] == once[i] {
      RewriteLineIdempotent(lines[i], latest);
    }
  }

  /** The loop at main.go:150-177 over already-split lines. */
  method UpdateRequirements(lines: seq<string>, latest: map<string, string>) returns (updated: seq<string>)
    ensures |updated| == |lines|
    ensures forall i :: 0 <= i < |lines| && IsCommentOrBlank(lines[i]) ==> updated[i] == lines[i]
    ensures updated == Rewritten(lines, latest)
  {
    updated := [];
    var i := 0;
    while i < |lines|
      invariant 0 <= i <= |lines|
      invariant |updated| == i
      invariant forall k :: 0 <= k < i ==> updated[k] == RewriteLine(lines[k], latest)
    {
      var line := lines[i];
      var trimmed := TrimSpace(line);
      if HasPrefix(trimmed, "#") || trimmed == [] {
        updated := updated + [line];
        i := i + 1;
        continue;
      }
      var matched := LeadingName(line);
      if matched.Some? {
        var name := matched.value;
        if name in latest {
          updated := updated + [name + "==" + latest[name]];
          i := i + 1;
          continue;
        }
      }
      updated := updated + [line];
      i := i + 1;
    }
  }

  /** The text written at main.go:190-197: every line followed by "\n". */
  function Rendered(lines: seq<string>): string {
    if lines == [] then "" else lines[0] + "\n" + Rendered(lines[1..])
  }

  /** Writing one more line appends it and its newline to the text. */
  lemma {:induction false} RenderedAppend(lines: seq<string>, line: string)
    ensures Rendered(lines + [line]) == Rendered(lines) + line + "\n"
  {
    if lines == [] {
      assert lines + [line] == [line];
    } else {
      assert (lines + [line])[1..] == lines[1..] + [line];
      RenderedAppend(lines[1..], line);
    }
  }

  /** Splitting the written text on "\n" gives back the lines, followed by the
      empty piece after the final newline, when no line holds a newline. */
  lemma {:induction false} SplitRendered(lines: seq<string>)
    requires forall i, k :: 0 <= i < |lines| && 0 <= k < |lines[i]| ==> lines[i][k] != '\n'
    ensures SplitLines(Rendered(lines)) == lines + [""]
  {
    if lines != [] {
      var text := Rendered(lines);
      var first := lines[0];
      assert text == first + "\n" + Rendered(lines[1..]);
      SpanFromUnique(text, 0, IsNotNewline, |first|);
      assert text[..|first|] == first;
      assert text[|first| + 1..] == Rendered(lines[1..]);
      SplitRendered(lines[1..]);
    }
  }

  /** The writer loop at main.go:190-196, producing the file's new content. */
  method WriteRequirements(updated: seq<string>) returns (content: string)
    ensures content == Rendered(updated)
  {
    content := "";
    var i := 0;
    while i < |updated|
      invariant 0 <= i <= |updated|
      invariant content == Rendered(updated[..i])
    {
      RenderedAppend(updated[..i], updated[i]);
      assert updated[..i + 1] == updated[..i] + [updated[i]];
      content := content + updated[i] + "\n";
      i := i + 1;
    }
    assert updated[..i] == updated;
  }

}
