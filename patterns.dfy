/**
  The regular expressions of the doc-comment tools, as string predicates:
  a doc-link line (`GitHub API docs:` in any case, words separated by white
  space, optionally followed by an http(s) URL) and an empty comment line.
  White space is `\s` of Go's regexp package: tab, newline, form feed,
  carriage return and space.
*/
module Patterns {
  import opened Options

  predicate IsSpace(c: char) {
    c == '\t' || c == '\n' || c == '\U{C}' || c == '\r' || c == ' '
  }

  function LowerChar(c: char): char {
    if 'A' <= c <= 'Z' then (c as int + 32) as char else c
  }

  /** The literal `lit` (lower case) occurs at `i`, ignoring case. */
  predicate LitAt(s: string, i: nat, lit: string) {
    i + |lit| <= |s| && forall k :: 0 <= k < |lit| ==> LowerChar(s[i + k]) == lit[k]
  }

  /** The first index at or after `i` that is not white space. */
  function SkipSpaces(s: string, i: nat): (r: nat)
    requires i <= |s|
    ensures i <= r <= |s|
    ensures forall k :: i <= k < r ==> IsSpace(s[k])
    ensures r < |s| ==> !IsSpace(s[r])
    decreases |s| - i
  {
    if i < |s| && IsSpace(s[i]) then SkipSpaces(s, i + 1) else i
  }

  /** The first index at or after `i` that is white space, or the end. */
  function SkipNonSpaces(s: string, i: nat): (r: nat)
    requires i <= |s|
    ensures i <= r <= |s|
    ensures forall k :: i <= k < r ==> !IsSpace(s[k])
    ensures r < |s| ==> IsSpace(s[r])
    decreases |s| - i
  {
    if i < |s| && !IsSpace(s[i]) then SkipNonSpaces(s, i + 1) else i
  }

  /**
    `GitHub\s+API\s+docs:` at `g`, ignoring case: the index just after the
    colon. Each run of white space is consumed whole, since the next word does
    not start with white space.
  */
  function DocsLabelAt(s: string, g: nat): (r: Option<nat>)
    requires g <= |s|
    ensures r.Some? ==> g < r.value <= |s|
  {
    if !LitAt(s, g, "github") then None
    else
      var a := SkipSpaces(s, g + 6);
      if a == g + 6 || !LitAt(s, a, "api") then None
      else
        var d := SkipSpaces(s, a + 3);
        if d == a + 3 || !LitAt(s, d, "docs:") then None
        else Some(d + 5)
  }

  /** The doc-line pattern of update-urls matches somewhere in the line. */
  predicate IsDocLine(s: string) {
    exists g :: 0 <= g <= |s| && DocsLabelAt(s, g).Some?
  }

  /** The URL after a `GitHub API docs:` label ending at `e`: `\s*https?://\S+`, the whole non-space token. */
  function LinkAfter(s: string, e: nat): (r: Option<string>)
    requires e <= |s|
  {
    var u := SkipSpaces(s, e);
    var rest := if LitAt(s, u, "https") then u + 5 else if LitAt(s, u, "http") then u + 4 else |s| + 1;
    if rest > |s| || !LitAt(s, rest, "://") || rest + 3 >= |s| || IsSpace(s[rest + 3]) then None
    else Some(s[u..SkipNonSpaces(s, rest + 3)])
  }

  /** The URL of the leftmost doc link in `s` at or after `g`: group 2 of the metadata tool's pattern. */
  function DocLinkFrom(s: string, g: nat): (r: Option<string>)
    requires g <= |s|
    decreases |s| - g
  {
    var found := DocsLabelAt(s, g);
    if found.Some? && LinkAfter(s, found.value).Some? then LinkAfter(s, found.value)
    else if g == |s| then None
    else DocLinkFrom(s, g + 1)
  }

  /** The doc-link URL of a comment line, if it has one. */
  function DocLink(s: string): (r: Option<string>)
    ensures r.Some? ==> IsDocLine(s)
  {
    DocLinkFromSound(s, 0);
    DocLinkFrom(s, 0)
  }

  lemma {:induction false} DocLinkFromSound(s: string, g: nat)
    requires g <= |s|
    ensures DocLinkFrom(s, g).Some? ==> IsDocLine(s)
    decreases |s| - g
  {
    var found := DocsLabelAt(s, g);
    if !(found.Some? && LinkAfter(s, found.value).Some?) && g < |s| {
      DocLinkFromSound(s, g + 1);
    }
  }

  /** `^\s*(//\s*)$`: a comment line with nothing but `//`. */
  predicate IsEmptyLine(s: string) {
    var a := SkipSpaces(s, 0);
    a + 2 <= |s| && s[a] == '/' && s[a + 1] == '/' && SkipSpaces(s, a + 2) == |s|
  }

  /** The doc-link line written for a link. */
  function DocLinkLine(link: string): string {
    "// GitHub API docs: " + link
  }

  /** Every line written for a link is a doc line and not an empty line. */
  lemma DocLinkLineIsDocLine(link: string)
    ensures IsDocLine(DocLinkLine(link))
    ensures !IsEmptyLine(DocLinkLine(link))
  {
    DocLinkLineLabel(link);
    DocLinkLineNotEmpty(link);
  }

  /** The label of a written doc-link line starts after the comment marker. */
  lemma DocLinkLineLabel(link: string)
    ensures DocsLabelAt(DocLinkLine(link), 3).Some?
  {
    var s := DocLinkLine(link);
    assert LitAt(s, 3, "github");
    assert SkipSpaces(s, 9) == 10 by {
      assert IsSpace(s[9]) && !IsSpace(s[10]);
      assert SkipSpaces(s, 10) == 10;
    }
    assert LitAt(s, 10, "api");
    assert SkipSpaces(s, 13) == 14 by {
      assert IsSpace(s[13]) && !IsSpace(s[14]);
      assert SkipSpaces(s, 14) == 14;
    }
    assert LitAt(s, 14, "docs:");
  }

  /** After the comment marker of a written doc-link line comes text that is not white space. */
  lemma DocLinkLineNotEmpty(link: string)
    ensures !IsEmptyLine(DocLinkLine(link))
  {
    var s := DocLinkLine(link);
    assert SkipSpaces(s, 0) == 0;
    assert SkipSpaces(s, 2) == 3 by {
      assert SkipSpaces(s, 3) == 3;
    }
  }

  /** The separator line is an empty line and not a doc line. */
  lemma SeparatorIsEmptyLine()
    ensures IsEmptyLine("//")
    ensures !IsDocLine("//")
  {
    assert SkipSpaces("//", 0) == 0;
    assert SkipSpaces("//", 2) == 2;
  }
}
