/** The string primitives the pin-file code relies on: the character classes of
    Go's regexp package and of unicode.IsSpace, strings.HasPrefix,
    strings.TrimSpace and strings.Split on a newline. Strings are sequences of
    Unicode scalar values; Go's UTF-8 byte encoding is not modelled. */
module Text {

  /** RE2's `\s`: the ASCII class [\t\n\f\r ] (no vertical tab). */
  predicate IsReSpace(c: char) {
    c == '\t' || c == '\n' || c == '\U{000C}' || c == '\r' || c == ' '
  }

  /** The complement of `\s`, i.e. RE2's `[^\s]`. */
  predicate IsNotReSpace(c: char) {
    !IsReSpace(c)
  }

  /** Go's unicode.IsSpace: the characters with the Unicode White_Space property,
      which strings.TrimSpace removes. */
  predicate IsSpace(c: char) {
    || c == '\t' || c == '\n' || c == '\U{000B}' || c == '\U{000C}' || c == '\r' || c == ' '
    || c == '\U{0085}' || c == '\U{00A0}' || c == '\U{1680}'
    || ('\U{2000}' <= c <= '\U{200A}')
    || c == '\U{2028}' || c == '\U{2029}' || c == '\U{202F}' || c == '\U{205F}' || c == '\U{3000}'
  }

  /** The package-name class [a-zA-Z0-9_\-] of both patterns in main.go. */
  predicate IsNameChar(c: char) {
    ('a' <= c <= 'z') || ('A' <= c <= 'Z') || ('0' <= c <= '9') || c == '_' || c == '-'
  }

  predicate IsNotNewline(c: char) {
    c != '\n'
  }

  /** Every `\s` character is trimmed by TrimSpace, and no name character is either. */
  lemma ClassesDisjoint(c: char)
    ensures IsReSpace(c) ==> IsSpace(c)
    ensures IsNameChar(c) ==> !IsSpace(c) && !IsReSpace(c) && c != '#' && c != '='
  {
  }

  /** The end of the longest run of characters satisfying `p` that starts at
      position `i` of `s`: where a greedy `p*` tried at `i` stops. */
  function SpanFrom(s: string, i: nat, p: char -> bool): (j: nat)
    requires i <= |s|
    ensures i <= j <= |s|
    ensures forall k :: i <= k < j ==> p(s[k])
    ensures j < |s| ==> !p(s[j])
    decreases |s| - i
  {
    if i == |s| || !p(s[i]) then i else SpanFrom(s, i + 1, p)
  }

  /** SpanFrom is determined by its contract: a run from `i` to `j` that
      satisfies `p` throughout and is followed by a character that does not (or
      by the end) is the span. */
  lemma SpanFromUnique(s: string, i: nat, p: char -> bool, j: nat)
    requires i <= j <= |s|
    requires forall k :: i <= k < j ==> p(s[k])
    requires j < |s| ==> !p(s[j])
    ensures SpanFrom(s, i, p) == j
  {
  }

  /** strings.HasPrefix */
  predicate HasPrefix(s: string, prefix: string) {
    |prefix| <= |s| && s[..|prefix|] == prefix
  }

  /** strings.TrimRight with unicode.IsSpace. */
  function TrimRightSpace(s: string): (r: string)
    ensures |r| <= |s| && r == s[..|r|]
    ensures forall k :: |r| <= k < |s| ==> IsSpace(s[k])
    ensures r != [] ==> !IsSpace(r[|r| - 1])
  {
    if s != [] && IsSpace(s[|s| - 1]) then TrimRightSpace(s[..|s| - 1]) else s
  }

  /** strings.TrimSpace: `s` without its leading and trailing white space. */
  function TrimSpace(s: string): string {
    TrimRightSpace(s[SpanFrom(s, 0, IsSpace)..])
  }

  /** TrimSpace keeps the middle of `s` from its first to its last character
      that is not white space, and gives "" exactly when all of `s` is white
      space. */
  lemma TrimSpaceMiddle(s: string)
    ensures var i := SpanFrom(s, 0, IsSpace); var r := TrimSpace(s);
      && i + |r| <= |s| && r == s[i..i + |r|]
      && (forall k :: i + |r| <= k < |s| ==> IsSpace(s[k]))
      && (r == [] <==> forall k :: 0 <= k < |s| ==> IsSpace(s[k]))
      && (r != [] ==> !IsSpace(r[0]) && !IsSpace(r[|r| - 1]))
  {
    var i := SpanFrom(s, 0, IsSpace);
    var r := TrimSpace(s);
    assert r == s[i..][..|r|] == s[i..i + |r|];
  }

  /** strings.Split(s, "\n"): the pieces of `s` between newlines, so that one
      trailing newline leaves a final empty piece. */
  function SplitLines(s: string): (r: seq<string>)
    ensures |r| >= 1
    ensures forall i, k :: 0 <= i < |r| && 0 <= k < |r[i]| ==> r[i][k] != '\n'
    decreases |s|
  {
    var k := SpanFrom(s, 0, IsNotNewline);
    if k == |s| then [s] else [s[..k]] + SplitLines(s[k + 1..])
  }

  /** strings.Join(pieces, "\n"): the pieces with a newline between each two. */
  function JoinLines(pieces: seq<string>): string {
    if pieces == [] then ""
    else if |pieces| == 1 then pieces[0]
    else pieces[0] + "\n" + JoinLines(pieces[1..])
  }

  /** Splitting on newlines loses nothing: joining the pieces with newlines
      gives back the string. */
  lemma {:induction false} JoinSplitLines(s: string)
    ensures JoinLines(SplitLines(s)) == s
    decreases |s|
  {
    var k := SpanFrom(s, 0, IsNotNewline);
    if k < |s| {
      var rest := SplitLines(s[k + 1..]);
      assert SplitLines(s) == [s[..k]] + rest;
      assert ([s[..k]] + rest)[1..] == rest;
      JoinSplitLines(s[k + 1..]);
      assert s == s[..k] + "\n" + s[k + 1..];
    }
  }

}
