# upgrade-all-python-packages: the pin-file core in Dafny

The tool reads a `requirements.txt` pin file, asks the package registry for the
latest release of every package it finds, and rewrites the file so that each
declaration of such a package reads `name==latest`. Comment lines, blank lines
and lines it cannot match are written back unchanged. This project models the
line-level part of that program (main.go) and proves what it does:

- `Text` (text.dfy): the character classes the program relies on. These are
  RE2's `\s` (`[\t\n\f\r ]`), Go's `unicode.IsSpace` (the Unicode White_Space
  set that `strings.TrimSpace` strips) and the name class `[a-zA-Z0-9_\-]`.
  The module also has a greedy run `SpanFrom`, `strings.TrimSpace`,
  `strings.HasPrefix`, and `strings.Split` on `"\n"`.
- `Requirements` (requirements.dfy): `parseRequirements`. Each line is either
  skipped or matched against `^\s*([a-zA-Z0-9_\-]+)(?:\s*==\s*([^\s]+))?` with
  Go's leftmost-first, greedy semantics.
  - A line is skipped when it starts with `#` or trims to empty.
  - The match is written by hand as `LeadingName` and `VersionGroup`, with
    declarative partners `NameAt` and `VersionAt` and uniqueness lemmas.
  - The map is folded from the lines by `Packages`; the later line wins.
  - The loop is `ParseRequirements`, proved equal to the fold.
- `Rewrite` (rewrite.dfy): `updateRequirements`.
  - `RewriteLine` is one iteration of its loop, using the pattern
    `^\s*([a-zA-Z0-9_\-]+)(.*)`.
  - `Rewritten` is the whole loop and `UpdateRequirements` is the loop itself.
  - `Rendered` and `WriteRequirements` are the writer that puts `"\n"` after
    every line.
- `Fetch` (fetch.dfy): the observable result of `fetchLatestVersions`. The
  registry lookup is a function `lookup: string -> Option<string>`. The
  collector loop takes the package names in an arbitrary order, which is what
  the worker pool leaves open, and keeps exactly the names whose lookup
  succeeded.
- `Upgrade` (upgrade.dfy): the three stages in the order `main` runs them, plus
  line-by-line and whole-file facts about the composition.
- `Examples` (examples.dfy): worked examples, all proved. They cover:
  - the file `foo==1.0`, `# comment`, `bar` with foo and bar released at 1.2
    and 2.0;
  - a registry on which every lookup fails;
  - the corner cases of the declaration pattern: `zope.interface==5`,
    `foo >= 1`, `foo == 1.0`, `foo==` and an indented comment.

The parser (main.go:47) tests `#` on the raw line, while the rewriter
(main.go:158-160) tests the trimmed line. The two tests lead to the same
entries. Every line the parser skips is a comment or blank line to the rewriter
(`SkippedIsCommentOrBlank`). An indented comment gets past the parser's test
but fails the name pattern, so it never yields an entry
(`ParseLineSkipsComments`).

The functions that model the program directly (`ParseLine`, `LeadingName`,
`VersionGroup`, `Packages`, `RewriteLine`, `Rendered`, `FetchResult`,
`TrimSpace` and the two comment tests) carry no contract of their own. Their
meaning is fixed by the lemmas named in their rows below.

## Model

| member | source | states |
|---|---|---|
| Text.SpanFrom | main.go:43 | a greedy run stops at the first character outside the class: every character before it is in the class, and the one at it is not |
| Text.TrimSpace | main.go:158 | no contract of its own; TrimSpaceMiddle and TrimRightSpace state what it keeps and what it strips |
| Text.TrimRightSpace | main.go:158 | the result is a prefix of the input, everything cut off is white space, and the result does not end in white space |
| Text.TrimSpaceMiddle | main.go:158 | TrimSpace keeps the stretch of the line from its first to its last character that is not white space, and gives "" exactly when the whole line is white space |
| Text.JoinSplitLines | main.go:190-197 | joining the pieces of SplitLines with newlines gives back the string, so splitting loses nothing |
| Requirements.LeadingName | main.go:43 | group 1 of the patterns at main.go:43 and main.go:154; no contract of its own, fixed by LeadingNameMatch and NameAtUnique |
| Requirements.VersionGroup | main.go:43 | group 2 of the pattern at main.go:43; no contract of its own, fixed by VersionGroupMatch and VersionAtUnique |
| Requirements.SkippedByParser | main.go:47 | the parser's skip test; no contract of its own, related to the rewriter's test by SkippedIsCommentOrBlank and NamedLineIsNotComment |
| Requirements.IsCommentOrBlank | main.go:158-160 | the rewriter's keep test; no contract of its own, fixed by TrimSpaceMiddle, NamedLineIsNotComment and ParseLineSkipsComments |
| Requirements.ParseLine | main.go:46-58 | one iteration of the parser loop; no contract of its own, fixed by ParseLineMatch, ParseLineDeclaration and ParseLineSkipsComments |
| Requirements.Packages | main.go:45-59 | the parser loop as a fold; no contract of its own, fixed by PackagesKeys, PackagesLastWins and PackagesNames, and equal to ParseRequirements |
| Requirements.LeadingNameMatch | main.go:43 | the captured name is a non-empty run of name characters starting right after the leading `\s` characters, and the run cannot be extended |
| Requirements.NameAtUnique | main.go:43 | wherever the name pattern can match, LeadingName captures exactly that name (the match is unique) |
| Requirements.VersionGroupMatch | main.go:43 | a non-empty version group is `\s*==\s*` followed by a maximal run of characters that are not `\s` |
| Requirements.VersionAtUnique | main.go:43 | wherever the optional group can match, VersionGroup captures exactly that version, so "" means the group cannot match |
| Requirements.ParseLineMatch | main.go:45-58 | a recorded line matches the declaration pattern: the name after the leading `\s`, and the version group tried right after the name |
| Requirements.ParseLineDeclaration | main.go:50-57 | every line the name pattern matches is recorded with the captured name and version, even when the version group fails ("" then) |
| Requirements.SkippedIsCommentOrBlank | main.go:47 | every line the parser's raw `#`/blank test skips is a comment or blank line for the rewriter's trimmed test |
| Requirements.NamedLineIsNotComment | main.go:158-160 | a line the name pattern matches is neither skipped by the parser nor kept as a comment by the rewriter |
| Requirements.ParseLineSkipsComments | main.go:47-50 | a line whose trimmed form starts with `#` or is empty adds no entry |
| Requirements.PackagesAppend | main.go:57 | the fold's step: folding one more line at the end updates the map as its ParseLine result says |
| Requirements.PackagesKeys | main.go:45-59 | a name is a key of the parsed map if and only if some line declares it |
| Requirements.PackagesLastWins | main.go:57 | a declared name maps to the version on the last line that declares it |
| Requirements.DeclaredName | main.go:43 | a recorded name is a non-empty run of name characters and is what LeadingName captures on its line |
| Requirements.PackagesNames | main.go:43-57 | every key of the parsed map is a name token that the pattern captures at the start of some line, after its leading `\s` |
| Requirements.ParseRequirements | main.go:39-61 | the loop's map equals the fold Packages over the lines |
| Rewrite.RewriteLine | main.go:157-176 | one iteration of the rewrite loop; no contract of its own, fixed by RewriteDeclaration, RewriteParsedLine, RewriteUnparsedLine and RewriteLineIdempotent |
| Rewrite.RewriteDeclaration | main.go:166-172 | a line whose leading name has a latest version becomes exactly `name==version`, dropping the rest of the line; a name without one leaves the line verbatim |
| Rewrite.RewriteParsedLine | main.go:166-176 | a line the parser records is replaced if and only if its name has a latest version |
| Rewrite.RewriteUnparsedLine | main.go:158-176 | a line the parser skips or cannot match is kept verbatim, whatever the map |
| Rewrite.RewriteLineNoNewline | main.go:170 | a rewritten line holds no newline unless the line or a latest version held one |
| Rewrite.RewriteLineIdempotent | main.go:166-172 | rewriting a line a second time with the same map changes nothing |
| Rewrite.Rewritten | main.go:156-177 | exactly one output line per input line, in order, each being that line's rewrite |
| Rewrite.RewrittenEmptyMap | main.go:174-176 | with an empty map the rewrite is the identity on the lines |
| Rewrite.RewrittenIdempotent | main.go:156-177 | rewriting the rewritten lines again with the same map changes nothing |
| Rewrite.UpdateRequirements | main.go:150-177 | the loop keeps comment and blank lines, yields one line per input line, and equals Rewritten |
| Rewrite.Rendered | main.go:190-197 | the written text; no contract of its own, fixed by RenderedAppend and SplitRendered, and equal to WriteRequirements |
| Rewrite.RenderedAppend | main.go:191-192 | writing one more line appends that line and "\n" to the text |
| Rewrite.SplitRendered | main.go:190-197 | splitting the written text on "\n" gives back the lines plus the empty piece after the last newline, when no line holds a newline |
| Rewrite.WriteRequirements | main.go:190-197 | the writer loop produces every line followed by "\n" |
| Fetch.FetchResult | main.go:99-105 | the map the collector ends with; no contract of its own, its keys and values are stated by FetchLatestVersions |
| Fetch.FetchLatestVersions | main.go:89-138 | the result's keys are package names; a name is present if and only if its lookup succeeded, with the version returned; failures add nothing and do not stop the others |
| Upgrade.UpgradePinFile | main.go:223-231 | parse, fetch, update and write compose to UpgradedFile |
| Upgrade.UpgradedLine | main.go:223-231 | line by line: a recorded declaration whose lookup succeeds becomes `name==version`; every other line stays verbatim |
| Upgrade.AllLookupsFailKeepsFile | main.go:99-105 | when the lookup of every parsed name fails, every line is written back unchanged |
| Upgrade.UpgradedFileSplits | main.go:190-197 | when no version found for a parsed name holds a newline, splitting the new file on "\n" gives the updated lines plus a final empty piece |
| Examples.ExampleParse | main.go:39-61 | `foo==1.0`, `# comment`, `bar` parse to foo ↦ 1.0 and bar ↦ "" |
| Examples.ExampleRewrite | main.go:156-177 | with foo ↦ 1.2 and bar ↦ 2.0 those lines become `foo==1.2`, `# comment`, `bar==2.0` |
| Examples.ExampleFetch | main.go:132-136 | a registry answering for foo and bar gives foo ↦ 1.2 and bar ↦ 2.0 |
| Examples.ExampleUpgrade | main.go:223-231 | end to end, the example file becomes "foo==1.2\n# comment\nbar==2.0\n" |
| Examples.ExampleFailedLookup | main.go:100-103 | a pin whose lookup fails stays as it was |
| Examples.ParseDottedName | main.go:43 | `zope.interface==5` records zope without a version |
| Examples.ParseRangeSpecifier | main.go:43 | `foo >= 1` records foo without a version |
| Examples.ParseSpacedPin | main.go:43 | `foo == 1.0` records foo at 1.0 |
| Examples.ParseEmptyPin | main.go:43 | `foo==` records foo without a version |
| Examples.IndentedComment | main.go:47 | `  # note` adds no entry and is kept verbatim by the rewriter |

## Left out

- File I/O is not modelled: `os.Open`, `os.Create`, `bufio.Scanner`, `bufio.Writer`, their errors and `scanner.Err`. The pin file is given as its lines already split, so the trailing `\r` that `ScanLines` strips and its token-size limit are not modelled either.
- `getLatestVersion` (HTTP GET and JSON decoding) is not modelled; it is the parameter `lookup`, which gives a version or fails.
- FetchLatestVersions: the goroutines, the job and result channels, the WaitGroup, the mutex and `numWorkers` are not modelled. They decide only the order in which results arrive, and the collector here takes the names in an arbitrary order. `lookup` is a function, so it answers the same way each time, and each name is looked up once, as in the program.
- The error message printed for a failed lookup (main.go:102) is not modelled, since printing is output only.
- `installPackages` (running pip) is not modelled, since it is an external process.
- `main`'s flag parsing and messages are not modelled; only the order of its stages is modelled, as `UpgradePinFile`.
- Strings are sequences of Unicode scalar values. Go's UTF-8 byte encoding and its handling of invalid UTF-8 are not modelled.
- The `packages` argument of `updateRequirements` is not a parameter, because the function never reads it.
- Only the two fixed patterns of main.go are matched, by hand; a general regular-expression engine is not modelled.
