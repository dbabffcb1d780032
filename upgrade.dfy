/** The stages that main.go runs in sequence: parse the pin file, fetch the
    latest versions, rewrite the lines and write them back. Flag parsing,
    printing and the optional pip install are not part of this model. */
module Upgrade {
  import opened Wrappers
  import opened Text
  import opened Requirements
  import opened Fetch
  import opened Rewrite

  /** The updated lines for the pin file `lines` when the registry answers as
      `lookup` does. */
  function UpgradedLines(lines: seq<string>, lookup: string -> Option<string>): seq<string> {
    Rewritten(lines, FetchResult(Packages(lines).Keys, lookup))
  }

  /** The new content of the pin file. */
  function UpgradedFile(lines: seq<string>, lookup: string -> Option<string>): string {
    Rendered(UpgradedLines(lines, lookup))
  }

  /** parseRequirements, fetchLatestVersions and updateRequirements in the
      order main.go:223-235 runs them, on already-split lines. */
  method UpgradePinFile(lines: seq<string>, lookup: string -> Option<string>) returns (content: string)
    ensures content == UpgradedFile(lines, lookup)
  {
    var packages := ParseRequirements(lines);
    var latest := FetchLatestVersions(packages, lookup);
    var updated := UpdateRequirements(lines, latest);
    content := WriteRequirements(updated);
  }

  /** Line by line: a declaration whose name's lookup succeeds becomes
      `name==version`; every other line (comments, blank lines, lines without a
      name, declarations whose lookup fails) is kept verbatim. */
  lemma UpgradedLine(lines: seq<string>, lookup: string -> Option<string>, i: nat)
    requires i < |lines|
    ensures |UpgradedLines(lines, lookup)| == |lines|
    ensures UpgradedLines(lines, lookup)[i] ==
      match ParseLine(lines[i])
      case None => lines[i]
      case Some(p) =>
        match lookup(p.name)
        case None => lines[i]
        case Some(version) => p.name + "==" + version
  {
    var latest := FetchResult(Packages(lines).Keys, lookup);
    var line := lines[i];
    if ParseLine(line).Some? {
      var name := ParseLine(line).value.name;
      assert Declares(lines[i], name);
      PackagesKeys(lines, name);
      RewriteParsedLine(line, latest);
    } else {
      RewriteUnparsedLine(line, latest);
    }
  }

  /** When the lookup of every parsed name fails, every line is written back
      unchanged. */
  lemma AllLookupsFailKeepsFile(lines: seq<string>, lookup: string -> Option<string>)
    requires forall name :: name in Packages(lines) ==> lookup(name).None?
    ensures UpgradedFile(lines, lookup) == Rendered(lines)
  {
    var latest := FetchResult(Packages(lines).Keys, lookup);
    assert latest == map[];
    RewrittenEmptyMap(lines);
  }

  /** Read back line by line, the new file holds exactly the updated lines, as
      long as neither the old lines nor the fetched versions hold a newline. */
  lemma UpgradedFileSplits(lines: seq<string>, lookup: string -> Option<string>)
    requires forall i, k :: 0 <= i < |lines| && 0 <= k < |lines[i]| ==> lines[i][k] != '\n'
    requires forall name, k :: name in Packages(lines) && lookup(name).Some? && 0 <= k < |lookup(name).value| ==>
      lookup(name).value[k] != '\n'
    ensures SplitLines(UpgradedFile(lines, lookup)) == UpgradedLines(lines, lookup) + [""]
  {
    var latest := FetchResult(Packages(lines).Keys, lookup);
    var updated := Rewritten(lines, latest);
    forall i, k | 0 <= i < |updated| && 0 <= k < |updated[i]| ensures updated[i][k] != '\n' {
      RewriteLineNoNewline(lines[i], latest);
    }
    SplitRendered(updated);
  }

}
