/**
  The lint tool's "github-actions" formatter: each failure becomes one
  GitHub Actions workflow command `::error <options>::<message>` on a line of
  its own, with the position options it has.
*/
module LintFormat {
  import opened Text

  /** A source position; it is valid when its line is positive (token.Position.IsValid). */
  datatype Position = Position(filename: string, line: int, column: int)

  predicate IsValid(p: Position) {
    p.line > 0
  }

  /** A lint failure: its message and the start and end of the node it is about. */
  datatype Failure = Failure(failure: string, start: Position, end: Position)

  /** The formatter's name. */
  const FormatterName: string := "github-actions"

  /** The option keys, in the order the options are written. */
  const OptionKeys: seq<string> := ["file", "line", "col", "endLine", "endCol"]

  /** The options of one failure, each `key=value`: the start position's, then the end position's. */
  function Opts(f: Failure): seq<string> {
    StartOpts(f.start) + EndOpts(f.end)
  }

  function StartOpts(p: Position): seq<string> {
    if IsValid(p) then
      ["file=" + p.filename, "line=" + Itoa(p.line)] + (if p.column != 0 then ["col=" + Itoa(p.column)] else [])
    else []
  }

  function EndOpts(p: Position): seq<string> {
    if IsValid(p) then ["endLine=" + Itoa(p.line)] + (if p.column != 0 then ["endCol=" + Itoa(p.column)] else [])
    else []
  }

  /** The value written for a key. */
  function OptionValue(f: Failure, key: string): string {
    if key == "file" then f.start.filename
    else if key == "line" then Itoa(f.start.line)
    else if key == "col" then Itoa(f.start.column)
    else if key == "endLine" then Itoa(f.end.line)
    else Itoa(f.end.column)
  }

  /** Whether a key's option is written for a failure. */
  predicate HasOption(f: Failure, key: string) {
    if key == "file" || key == "line" then IsValid(f.start)
    else if key == "col" then IsValid(f.start) && f.start.column != 0
    else if key == "endLine" then IsValid(f.end)
    else key == "endCol" && IsValid(f.end) && f.end.column != 0
  }

  /** The option for one key, when its condition holds. */
  function Sel(f: Failure, key: string): seq<string> {
    if HasOption(f, key) then [key + "=" + OptionValue(f, key)] else []
  }

  /** The `key=value` options of the keys whose condition holds, in the order of `keys`. */
  function Selected(f: Failure, keys: seq<string>): (r: seq<string>)
    ensures |r| <= |keys|
  {
    if |keys| == 0 then [] else Selected(f, keys[..|keys| - 1]) + Sel(f, keys[|keys| - 1])
  }

  /** The options are exactly the keys whose condition holds, in the fixed key order, each written as `key=value`. */
  lemma OptsSelected(f: Failure)
    ensures Opts(f) == Selected(f, OptionKeys)
  {
    SelectedKeys(f);
    StartSelected(f);
    EndSelected(f);
  }

  lemma StartSelected(f: Failure)
    ensures StartOpts(f.start) == Sel(f, "file") + Sel(f, "line") + Sel(f, "col")
  {
    assert "file" + "=" == "file=" && "line" + "=" == "line=" && "col" + "=" == "col=";
    if IsValid(f.start) {
      assert Sel(f, "file") == ["file=" + f.start.filename];
      assert Sel(f, "line") == ["line=" + Itoa(f.start.line)];
    }
  }

  lemma EndSelected(f: Failure)
    ensures EndOpts(f.end) == Sel(f, "endLine") + Sel(f, "endCol")
  {
    assert "endLine" + "=" == "endLine=" && "endCol" + "=" == "endCol=";
    assert "endLine" != "file" && "endLine" != "line" && "endLine" != "col";
    assert "endCol" != "file" && "endCol" != "line" && "endCol" != "col" && "endCol" != "endLine";
  }

  lemma SelectedKeys(f: Failure)
    ensures Selected(f, OptionKeys) == Sel(f, "file") + Sel(f, "line") + Sel(f, "col") + Sel(f, "endLine") + Sel(f, "endCol")
  {
    var k := OptionKeys;
    assert k[..4][..3] == k[..3] && k[..3][..2] == k[..2] && k[..2][..1] == k[..1] && k[..1][..0] == [];
    assert Selected(f, k[..1]) == Sel(f, "file");
    assert Selected(f, k[..2]) == Sel(f, "file") + Sel(f, "line");
    assert Selected(f, k[..3]) == Sel(f, "file") + Sel(f, "line") + Sel(f, "col");
    assert Selected(f, k[..4]) == Sel(f, "file") + Sel(f, "line") + Sel(f, "col") + Sel(f, "endLine");
  }

  /** No selected option has a newline when the file name has none. */
  lemma {:induction false} SelectedNoNewline(f: Failure, keys: seq<string>)
    requires '\n' !in f.start.filename
    ensures forall i :: 0 <= i < |Selected(f, keys)| ==> '\n' !in Selected(f, keys)[i]
  {
    if |keys| > 0 {
      SelectedNoNewline(f, keys[..|keys| - 1]);
      var key := keys[|keys| - 1];
      assert '\n' !in OptionValue(f, key);
    }
  }

  /** The workflow-command line of one failure, newline-terminated; newlines inside are written as %0A. */
  function FormatLine(f: Failure): string {
    ReplaceAll("::" + "error" + " " + JoinWith(Opts(f), ",") + "::" + f.failure, "\n", "%0A") + "\n"
  }

  /** The formatter's output for the failures, in order. */
  function Format(failures: seq<Failure>): string {
    if |failures| == 0 then "" else Format(failures[..|failures| - 1]) + FormatLine(failures[|failures| - 1])
  }

  /** The options loop of one failure. */
  method BuildOpts(f: Failure) returns (opts: seq<string>)
    ensures opts == Opts(f)
  {
    opts := [];
    if IsValid(f.start) {
      var line := Itoa(f.start.line);
      opts := opts + ["file=" + f.start.filename];
      opts := opts + ["line=" + line];
      if f.start.column != 0 {
        var col := Itoa(f.start.column);
        opts := opts + ["col=" + col];
      }
    }
    ghost var start := opts;
    assert start == StartOpts(f.start);
    if IsValid(f.end) {
      var line := Itoa(f.end.line);
      opts := opts + ["endLine=" + line];
      if f.end.column != 0 {
        var col := Itoa(f.end.column);
        opts := opts + ["endCol=" + col];
        assert opts == start + ["endLine=" + line, "endCol=" + col];
      }
    }
    assert opts == start + EndOpts(f.end);
  }

  /** githubActionsFormatter.format over the failures received, writing into a buffer. */
  method FormatFailures(failures: seq<Failure>) returns (out: string)
    ensures out == Format(failures)
  {
    var buf := "";
    var i := 0;
    while i < |failures|
      invariant 0 <= i <= |failures|
      invariant buf == Format(failures[..i])
    {
      assert failures[..i + 1][..i] == failures[..i];
      var f := failures[i];
      var opts := BuildOpts(f);
      var optsString := JoinWith(opts, ",");
      var line := "::" + "error" + " " + optsString + "::" + f.failure;
      buf := buf + ReplaceAll(line, "\n", "%0A");
      buf := buf + "\n";
      i := i + 1;
    }
    assert failures[..i] == failures;
    out := buf;
  }

  // ---------------------------------------------------------------------
  // Properties

  /** How often `c` occurs in `s`. */
  function CountChar(s: string, c: char): nat {
    if |s| == 0 then 0 else CountChar(s[..|s| - 1], c) + (if s[|s| - 1] == c then 1 else 0)
  }

  lemma {:induction false} CountCharAppend(a: string, b: string, c: char)
    ensures CountChar(a + b, c) == CountChar(a, c) + CountChar(b, c)
    decreases |b|
  {
    if |b| == 0 {
      assert a + b == a;
    } else {
      assert (a + b)[..|a + b| - 1] == a + b[..|b| - 1];
      CountCharAppend(a, b[..|b| - 1], c);
    }
  }

  lemma {:induction false} CountCharAbsent(s: string, c: char)
    requires c !in s
    ensures CountChar(s, c) == 0
  {
    if |s| > 0 {
      assert s[..|s| - 1] <= s;
      CountCharAbsent(s[..|s| - 1], c);
    }
  }

  /** Each failure's line ends in its only newline. */
  lemma FormatLineShape(f: Failure)
    ensures |FormatLine(f)| > 0 && FormatLine(f)[|FormatLine(f)| - 1] == '\n'
    ensures '\n' !in FormatLine(f)[..|FormatLine(f)| - 1]
    ensures CountChar(FormatLine(f), '\n') == 1
  {
    var body := ReplaceAll("::" + "error" + " " + JoinWith(Opts(f), ",") + "::" + f.failure, "\n", "%0A");
    ReplaceAllRemoves("::" + "error" + " " + JoinWith(Opts(f), ",") + "::" + f.failure, '\n', "%0A");
    assert FormatLine(f)[..|FormatLine(f)| - 1] == body;
    CountCharAbsent(body, '\n');
    CountCharAppend(body, "\n", '\n');
    assert "\n"[..0] == "";
  }

  /** The output has exactly one line per failure: one newline each. */
  lemma {:induction false} FormatLineCount(failures: seq<Failure>)
    ensures CountChar(Format(failures), '\n') == |failures|
  {
    if |failures| > 0 {
      FormatLineCount(failures[..|failures| - 1]);
      FormatLineShape(failures[|failures| - 1]);
      CountCharAppend(Format(failures[..|failures| - 1]), FormatLine(failures[|failures| - 1]), '\n');
    }
  }

  /** A separator-joined list has no `c` when neither the parts nor the separator have one. */
  lemma {:induction false} JoinWithAbsent(parts: seq<string>, sep: string, c: char)
    requires c !in sep && forall i :: 0 <= i < |parts| ==> c !in parts[i]
    ensures c !in JoinWith(parts, sep)
  {
    if |parts| > 1 {
      JoinWithAbsent(parts[1..], sep, c);
    }
  }

  lemma NoNewlineConcat(a: string, b: string, c: string, d: string)
    requires '\n' !in a && '\n' !in b && '\n' !in c && '\n' !in d
    ensures '\n' !in a + b + c + d
  {
  }

  lemma CommandPrefix(joined: string, msg: string)
    ensures "::" + "error" + " " + joined + "::" + msg == "::error " + joined + "::" + msg
  {
  }

  /** With no newline in the message or the file name, a line is the command as it stands. */
  lemma FormatLinePlain(f: Failure)
    requires '\n' !in f.failure && '\n' !in f.start.filename
    ensures FormatLine(f) == "::error " + JoinWith(Opts(f), ",") + "::" + f.failure + "\n"
  {
    var opts := Opts(f);
    OptsSelected(f);
    SelectedNoNewline(f, OptionKeys);
    var joined := JoinWith(opts, ",");
    JoinWithAbsent(opts, ",", '\n');
    var line := "::" + "error" + " " + joined + "::" + f.failure;
    CommandPrefix(joined, f.failure);
    NoNewlineConcat("::error ", joined, "::", f.failure);
    ReplaceAllAbsent(line, '\n', "%0A");
  }
}
