/**
  update-urls' rewrite of a Go file: for every exported method of a file in
  package github, the comment lines before it lose their doc-link lines and
  trailing empty comment lines, then get a "//" separator and one doc-link
  line per link of the method.
*/
module UpdateUrls {
  import opened Options
  import opened GoAst
  import opened Patterns
  import DocLinks

  // ---------------------------------------------------------------------
  // The comment-line rewrite

  /** The comment lines that are not doc-link lines, in order. */
  function DropDocLines(lines: seq<string>): (r: seq<string>)
    ensures |r| <= |lines|
  {
    if |lines| == 0 then []
    else DropDocLines(lines[..|lines| - 1]) + (if IsDocLine(lines[|lines| - 1]) then [] else [lines[|lines| - 1]])
  }

  /** One doc-link line per link, in the given order; links are written as they are. */
  function LinkLinesOf(links: seq<string>): (r: seq<string>)
    ensures |r| == |links|
  {
    if |links| == 0 then [] else LinkLinesOf(links[..|links| - 1]) + [DocLinkLine(links[|links| - 1])]
  }

  /** With links: the "//" separator, then the link lines. Without: nothing. */
  function LinkBlock(links: seq<string>): seq<string> {
    if |links| > 0 then ["//"] + LinkLinesOf(links) else []
  }

  /** The new comment lines of a method. */
  function RewriteComments(comments: seq<string>, links: seq<string>): seq<string> {
    DocLinks.TrimEmpty(DropDocLines(comments)) + LinkBlock(links)
  }

  /** The loop building `starts`: doc-link lines left out, trailing empty lines cut, separator and links appended. */
  method RewriteCommentLines(comments: seq<string>, links: seq<string>) returns (starts: seq<string>)
    ensures starts == RewriteComments(comments, links)
  {
    starts := [];
    var i := 0;
    while i < |comments|
      invariant 0 <= i <= |comments|
      invariant starts == DropDocLines(comments[..i])
    {
      assert comments[..i + 1][..i] == comments[..i];
      if !IsDocLine(comments[i]) {
        starts := starts + [comments[i]];
      }
      i := i + 1;
    }
    assert comments[..i] == comments;
    starts := DocLinks.TrimEmptyLines(starts);
    ghost var trimmed := starts;
    if |links| > 0 {
      starts := starts + ["//"];
    }
    var k := 0;
    while k < |links|
      invariant 0 <= k <= |links|
      invariant starts == trimmed + (if |links| > 0 then ["//"] + LinkLinesOf(links[..k]) else [])
    {
      assert links[..k + 1][..k] == links[..k];
      starts := starts + [DocLinkLine(links[k])];
      k := k + 1;
    }
    assert links[..k] == links;
  }

  // ---------------------------------------------------------------------
  // Properties of the rewrite

  /** Dropping doc lines works line by line: it distributes over concatenation. */
  lemma {:induction false} DropDocLinesAppend(a: seq<string>, b: seq<string>)
    ensures DropDocLines(a + b) == DropDocLines(a) + DropDocLines(b)
    decreases |b|
  {
    if |b| == 0 {
      assert a + b == a;
    } else {
      assert (a + b)[..|a + b| - 1] == a + b[..|b| - 1];
      DropDocLinesAppend(a, b[..|b| - 1]);
    }
  }

  /** No doc line survives, and a line that is not a doc line is kept. */
  lemma {:induction false} DropDocLinesExact(lines: seq<string>)
    ensures forall k :: 0 <= k < |DropDocLines(lines)| ==> !IsDocLine(DropDocLines(lines)[k])
    ensures forall l :: l in DropDocLines(lines) <==> l in lines && !IsDocLine(l)
  {
    if |lines| > 0 {
      DropDocLinesExact(lines[..|lines| - 1]);
      assert lines == lines[..|lines| - 1] + [lines[|lines| - 1]];
    }
  }

  /** Lines without doc lines pass through unchanged. */
  lemma {:induction false} DropDocLinesClean(lines: seq<string>)
    requires forall k :: 0 <= k < |lines| ==> !IsDocLine(lines[k])
    ensures DropDocLines(lines) == lines
  {
    if |lines| > 0 {
      DropDocLinesClean(lines[..|lines| - 1]);
    }
  }

  /** Every written link line is a doc line, so a second rewrite drops all of them. */
  lemma {:induction false} LinkLinesDropped(links: seq<string>)
    ensures DropDocLines(LinkLinesOf(links)) == []
  {
    if |links| > 0 {
      LinkLinesDropped(links[..|links| - 1]);
      DocLinkLineIsDocLine(links[|links| - 1]);
      DropDocLinesAppend(LinkLinesOf(links[..|links| - 1]), [DocLinkLine(links[|links| - 1])]);
      assert [DocLinkLine(links[|links| - 1])][..0] == [];
    }
  }

  /** Trimming a list that ends in a non-empty line, followed by empty lines, gives that list. */
  lemma {:induction false} TrimEmptyTail(t: seq<string>, tail: seq<string>)
    requires |t| > 0 ==> !IsEmptyLine(t[|t| - 1])
    requires forall k :: 0 <= k < |tail| ==> IsEmptyLine(tail[k])
    ensures DocLinks.TrimEmpty(t + tail) == t
    decreases |tail|
  {
    if |tail| > 0 {
      assert (t + tail)[..|t + tail| - 1] == t + tail[..|tail| - 1];
      TrimEmptyTail(t, tail[..|tail| - 1]);
    } else {
      assert t + tail == t;
    }
  }

  /** Rewriting a second time with the same links changes nothing. */
  lemma RewriteIdempotent(comments: seq<string>, links: seq<string>)
    ensures RewriteComments(RewriteComments(comments, links), links) == RewriteComments(comments, links)
  {
    var kept := DropDocLines(comments);
    var t := DocLinks.TrimEmpty(kept);
    DropDocLinesExact(comments);
    assert forall k :: 0 <= k < |t| ==> t[k] == kept[k];
    DropDocLinesClean(t);
    var block := LinkBlock(links);
    DropDocLinesAppend(t, block);
    BlockDropsToSeparator(links);
    if |links| > 0 {
      SeparatorIsEmptyLine();
      TrimEmptyTail(t, ["//"]);
    } else {
      TrimEmptyTail(t, []);
      assert t + [] == t;
    }
  }

  /** Dropping the doc-link lines of a link block leaves the separator alone, or nothing. */
  lemma BlockDropsToSeparator(links: seq<string>)
    ensures DropDocLines(LinkBlock(links)) == if |links| > 0 then ["//"] else []
  {
    if |links| > 0 {
      SeparatorIsEmptyLine();
      DropDocLinesAppend(["//"], LinkLinesOf(links));
      LinkLinesDropped(links);
      assert ["//"][..0] == [];
      assert DropDocLines(["//"]) == ["//"];
    }
  }

  /** With links, the block is the separator followed by one line per link, in order. */
  lemma LinkBlockShape(links: seq<string>)
    requires |links| > 0
    ensures |LinkBlock(links)| == |links| + 1 && LinkBlock(links)[0] == "//"
    ensures forall k :: 0 <= k < |links| ==> LinkBlock(links)[k + 1] == DocLinkLine(links[k])
  {
    LinkLinesAt(links);
  }

  lemma {:induction false} LinkLinesAt(links: seq<string>)
    ensures forall k :: 0 <= k < |links| ==> LinkLinesOf(links)[k] == DocLinkLine(links[k])
  {
    if |links| > 0 {
      LinkLinesAt(links[..|links| - 1]);
    }
  }

  // ---------------------------------------------------------------------
  // The file rewrite

  /**
    The receiver type of a method as update-urls reads it: an identifier or a
    pointer to one; any other type gives "". `None` is a panic: an empty
    receiver list, or a pointer to something other than an identifier.
  */
  function ReceiverTypeName(recv: seq<Field>): Option<string> {
    if |recv| == 0 then None
    else
      match recv[0].typ
      case Some(Ident(n)) => Some(n)
      case Some(Star(x)) => if x.Ident? then Some(x.name) else None
      case _ => Some("")
  }

  /** One declaration; `None` when reading its receiver panics. */
  function UpdateDecl(d: Decl, docLinksFor: string -> seq<string>): (r: Option<Decl>)
    ensures r.Some? ==> r.value.FuncDecl? == d.FuncDecl?
  {
    if !d.FuncDecl? || !IsExported(d.name) || d.recv.None? then Some(d)
    else
      match ReceiverTypeName(d.recv.value)
      case None => None
      case Some(rt) => Some(d.(doc := RewriteComments(d.doc, docLinksFor(rt + "." + d.name))))
  }

  /** The declarations in order; the first panic ends the rewrite. */
  function UpdateDecls(decls: seq<Decl>, docLinksFor: string -> seq<string>): (r: Option<seq<Decl>>)
    ensures r.Some? ==> |r.value| == |decls|
  {
    if |decls| == 0 then Some([])
    else
      match UpdateDecls(decls[..|decls| - 1], docLinksFor)
      case None => None
      case Some(ds) =>
        match UpdateDecl(decls[|decls| - 1], docLinksFor)
        case None => None
        case Some(d) => Some(ds + [d])
  }

  /** updateFile on a parsed file: a file outside package github is returned as it is. */
  function UpdatedFile(f: File, docLinksFor: string -> seq<string>): Option<File> {
    if f.pkg != "github" then Some(f)
    else
      match UpdateDecls(f.decls, docLinksFor)
      case None => None
      case Some(ds) => Some(File(f.pkg, ds))
  }

  /** The Inspect callback applied to each declaration in turn. */
  method UpdateFile(f: File, docLinksFor: string -> seq<string>) returns (r: Option<File>)
    ensures r == UpdatedFile(f, docLinksFor)
  {
    if f.pkg != "github" {
      return Some(f);
    }
    var ds: seq<Decl> := [];
    var i := 0;
    while i < |f.decls|
      invariant 0 <= i <= |f.decls|
      invariant UpdateDecls(f.decls[..i], docLinksFor) == Some(ds)
    {
      assert f.decls[..i + 1][..i] == f.decls[..i];
      var d := f.decls[i];
      if !d.FuncDecl? || !IsExported(d.name) || d.recv.None? {
        ds := ds + [d];
      } else {
        var rt := ReceiverTypeName(d.recv.value);
        if rt.None? {
          assert UpdateDecls(f.decls[..i + 1], docLinksFor).None?;
          assert f.decls[..i + 1] <= f.decls;
          UpdateDeclsPanicPersists(f.decls[..i + 1], f.decls, docLinksFor);
          return None;
        }
        var doc := RewriteCommentLines(d.doc, docLinksFor(rt.value + "." + d.name));
        ds := ds + [d.(doc := doc)];
      }
      i := i + 1;
    }
    assert f.decls[..i] == f.decls;
    r := Some(File(f.pkg, ds));
  }

  /** Once a prefix of the declarations panics, so does the whole file. */
  lemma {:induction false} UpdateDeclsPanicPersists(prefix: seq<Decl>, decls: seq<Decl>, docLinksFor: string -> seq<string>)
    requires prefix <= decls
    requires UpdateDecls(prefix, docLinksFor).None?
    ensures UpdateDecls(decls, docLinksFor).None?
    decreases |decls|
  {
    if |decls| > |prefix| {
      assert prefix <= decls[..|decls| - 1];
      UpdateDeclsPanicPersists(prefix, decls[..|decls| - 1], docLinksFor);
    } else {
      assert prefix == decls;
    }
  }

  /** `u` is `d` with at most its comments changed, and those only on an exported method. */
  predicate KeepsShape(d: Decl, u: Decl) {
    && (d.FuncDecl? ==> u.FuncDecl? && u == d.(doc := u.doc))
    && (!d.FuncDecl? || !IsExported(d.name) || d.recv.None? ==> u == d)
  }

  lemma UpdateDeclKeepsShape(d: Decl, docLinksFor: string -> seq<string>)
    requires UpdateDecl(d, docLinksFor).Some?
    ensures KeepsShape(d, UpdateDecl(d, docLinksFor).value)
  {
  }

  /** Only the comments of exported methods change; every other part of every declaration stays. */
  lemma {:induction false} UpdateDeclsKeepsShape(decls: seq<Decl>, docLinksFor: string -> seq<string>)
    requires UpdateDecls(decls, docLinksFor).Some?
    ensures forall k :: 0 <= k < |decls| ==> KeepsShape(decls[k], UpdateDecls(decls, docLinksFor).value[k])
  {
    if |decls| > 0 {
      var prefix := decls[..|decls| - 1];
      UpdateDeclsKeepsShape(prefix, docLinksFor);
      var ds := UpdateDecls(prefix, docLinksFor).value;
      var last := decls[|decls| - 1];
      UpdateDeclKeepsShape(last, docLinksFor);
      var all := ds + [UpdateDecl(last, docLinksFor).value];
      assert UpdateDecls(decls, docLinksFor).value == all;
      forall k | 0 <= k < |decls|
        ensures KeepsShape(decls[k], all[k])
      {
        if k < |decls| - 1 {
          assert decls[k] == prefix[k];
          assert all[k] == ds[k];
        }
      }
    }
  }

  /** Running update-urls a second time with the same links changes nothing. */
  lemma {:induction false} UpdateDeclsIdempotent(decls: seq<Decl>, docLinksFor: string -> seq<string>)
    requires UpdateDecls(decls, docLinksFor).Some?
    ensures UpdateDecls(UpdateDecls(decls, docLinksFor).value, docLinksFor) == UpdateDecls(decls, docLinksFor)
  {
    if |decls| > 0 {
      var prefix := decls[..|decls| - 1];
      var d := decls[|decls| - 1];
      UpdateDeclsIdempotent(prefix, docLinksFor);
      var ds := UpdateDecls(prefix, docLinksFor).value;
      var u := UpdateDecl(d, docLinksFor).value;
      var all := ds + [u];
      assert all[..|all| - 1] == ds;
      if d.FuncDecl? && IsExported(d.name) && d.recv.Some? {
        var rt := ReceiverTypeName(d.recv.value).value;
        RewriteIdempotent(d.doc, docLinksFor(rt + "." + d.name));
      }
    }
  }

  lemma UpdatedFileIdempotent(f: File, docLinksFor: string -> seq<string>)
    requires UpdatedFile(f, docLinksFor).Some?
    ensures UpdatedFile(UpdatedFile(f, docLinksFor).value, docLinksFor) == UpdatedFile(f, docLinksFor)
  {
    if f.pkg == "github" {
      UpdateDeclsIdempotent(f.decls, docLinksFor);
    }
  }
}
