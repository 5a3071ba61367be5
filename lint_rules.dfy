/**
  The lint tool's "int_ids" rule: struct fields whose name ends in "ID" must
  not have type int or *int. The rule walks a file's syntax tree in source
  order and checks the fields of every struct type it meets, without looking
  inside those fields.
*/
module LintRules {
  import opened Options
  import opened Text
  import opened GoAst

  const RuleName: string := "int_ids"

  const IntIdsMessage: string := "struct fields with a name ending in ID must not be int or *int"

  /** A failure of the rule and the field it is about. */
  datatype Failure = Failure(failure: string, node: Field)

  /** The type with one pointer removed. */
  function Underlying(t: Expr): Expr {
    if t.Star? then t.x else t
  }

  /** A field the rule reports: a type, a first name ending in "ID", and `int` under at most one pointer. */
  predicate Flagged(f: Field) {
    f.typ.Some? && |f.names| > 0 && HasSuffix(f.names[0], "ID") && Underlying(f.typ.value) == Ident("int")
  }

  /** A field is reported exactly when it is named ...ID and has type int or *int. */
  lemma FlaggedIff(f: Field)
    ensures Flagged(f) <==> |f.names| > 0 && HasSuffix(f.names[0], "ID")
                            && (f.typ == Some(Ident("int")) || f.typ == Some(Star(Ident("int"))))
  {
  }

  /** Every failure carries the rule's message and a field the rule reports. */
  predicate AllReported(r: seq<Failure>) {
    forall k :: 0 <= k < |r| ==> r[k].failure == IntIdsMessage && Flagged(r[k].node)
  }

  /** The failures for the fields of one struct type, in field order. */
  function StructFailures(fields: seq<Field>): (r: seq<Failure>)
    ensures |r| <= |fields|
    ensures AllReported(r)
    ensures forall k :: 0 <= k < |r| ==> r[k].node in fields
    ensures forall f :: f in fields && Flagged(f) ==> Failure(IntIdsMessage, f) in r
  {
    if |fields| == 0 then []
    else
      var f := fields[|fields| - 1];
      var prev := StructFailures(fields[..|fields| - 1]);
      assert fields == fields[..|fields| - 1] + [f];
      prev + (if Flagged(f) then [Failure(IntIdsMessage, f)] else [])
  }

  /** The callback's loop over a struct's fields, appending to `failures`. */
  method AppendStructFailures(failures: seq<Failure>, fields: seq<Field>) returns (r: seq<Failure>)
    ensures r == failures + StructFailures(fields)
  {
    r := failures;
    var i := 0;
    while i < |fields|
      invariant 0 <= i <= |fields|
      invariant r == failures + StructFailures(fields[..i])
    {
      assert fields[..i + 1][..i] == fields[..i];
      var f := fields[i];
      i := i + 1;
      var tp := f.typ;
      if tp.None? || |f.names| == 0 || !HasSuffix(f.names[0], "ID") {
        continue;
      }
      var t := tp.value;
      if t.Star? {
        t := t.x;
      }
      if !t.Ident? {
        continue;
      }
      if t.name == "int" {
        r := r + [Failure(IntIdsMessage, f)];
      }
    }
    assert fields[..i] == fields;
  }

  /** Concatenation of a list of lists. */
  function Concat<T>(ss: seq<seq<T>>): seq<T> {
    if |ss| == 0 then [] else Concat(ss[..|ss| - 1]) + ss[|ss| - 1]
  }

  // ---------------------------------------------------------------------
  // The walk (ast.Inspect): every node in source order, except that the
  // fields of a struct type are not entered. The walk is given as the list
  // of struct types it meets; the callback checks each of them.

  function ExprStructs(e: Expr): seq<seq<Field>> {
    match e
    case StructType(fields) => [fields]
    case Call(fun, args) => ExprStructs(fun) + Concat(seq(|args|, i requires 0 <= i < |args| => ExprStructs(args[i])))
    case Selector(x, _) => ExprStructs(x)
    case Star(x) => ExprStructs(x)
    case Unary(x) => ExprStructs(x)
    case Paren(x) => ExprStructs(x)
    case ArrayType(elt) => ExprStructs(elt)
    case MapType(k, v) => ExprStructs(k) + ExprStructs(v)
    case CompositeLit(typ, elts) => OptStructs(typ) + Concat(seq(|elts|, i requires 0 <= i < |elts| => ExprStructs(elts[i])))
    case KeyValue(k, v) => ExprStructs(k) + ExprStructs(v)
    case FuncLit(sig, body) => SigStructs(sig) + Concat(seq(|body|, i requires 0 <= i < |body| => StmtStructs(body[i])))
    case Binary(x, y) => ExprStructs(x) + ExprStructs(y)
    case TypeAssert(x, typ) => ExprStructs(x) + OptStructs(typ)
    case Ident(_) => []
    case BasicLit(_) => []
    case OtherExpr(_) => []
  }

  function OptStructs(o: Option<Expr>): seq<seq<Field>> {
    match o
    case Some(e) => ExprStructs(e)
    case None => []
  }

  /** The type of a receiver, parameter or result. */
  function FieldStructs(f: Field): seq<seq<Field>> {
    OptStructs(f.typ)
  }

  function SigStructs(sig: Signature): seq<seq<Field>> {
    Concat(seq(|sig.params|, i requires 0 <= i < |sig.params| => FieldStructs(sig.params[i])))
    + Concat(seq(|sig.results|, i requires 0 <= i < |sig.results| => FieldStructs(sig.results[i])))
  }

  function StmtStructs(s: Stmt): seq<seq<Field>> {
    match s
    case Assign(lhs, rhs) =>
      Concat(seq(|lhs|, i requires 0 <= i < |lhs| => ExprStructs(lhs[i])))
      + Concat(seq(|rhs|, i requires 0 <= i < |rhs| => ExprStructs(rhs[i])))
    case If(body, els) => Concat(seq(|body|, i requires 0 <= i < |body| => StmtStructs(body[i]))) + ElseStructs(els)
    case Return(results) => Concat(seq(|results|, i requires 0 <= i < |results| => ExprStructs(results[i])))
    case DeclStmt(specs) => Concat(seq(|specs|, i requires 0 <= i < |specs| => SpecStructs(specs[i])))
    case DeferStmt(call) => ExprStructs(call)
    case ExprStmt(x) => ExprStructs(x)
    case RangeStmt(k, v, x, body) =>
      OptStructs(k) + OptStructs(v) + ExprStructs(x)
      + Concat(seq(|body|, i requires 0 <= i < |body| => StmtStructs(body[i])))
    case SwitchStmt(tag, clauses) =>
      OptStructs(tag) + Concat(seq(|clauses|, i requires 0 <= i < |clauses| => ClauseStructs(clauses[i])))
    case OtherStmt(_) => []
  }

  function ElseStructs(e: Else): seq<seq<Field>> {
    match e
    case ElseBlock(body) => Concat(seq(|body|, i requires 0 <= i < |body| => StmtStructs(body[i])))
    case ElseIf(body, els) => Concat(seq(|body|, i requires 0 <= i < |body| => StmtStructs(body[i]))) + ElseStructs(els)
    case NoElse => []
    case OtherElse(_) => []
  }

  function ClauseStructs(c: CaseClause): seq<seq<Field>> {
    Concat(seq(|c.list|, i requires 0 <= i < |c.list| => ExprStructs(c.list[i])))
    + Concat(seq(|c.body|, i requires 0 <= i < |c.body| => StmtStructs(c.body[i])))
  }

  function SpecStructs(sp: Spec): seq<seq<Field>> {
    match sp
    case TypeSpec(_, typ) => ExprStructs(typ)
    case ValueSpec(_, typ, values) =>
      OptStructs(typ) + Concat(seq(|values|, i requires 0 <= i < |values| => ExprStructs(values[i])))
    case ImportSpec => []
  }

  /** A declaration: a function's receiver, signature and body, or a general declaration's specs. */
  function DeclStructs(d: Decl): seq<seq<Field>> {
    match d
    case FuncDecl(_, recv, _, sig, body) =>
      (if recv.Some? then Concat(seq(|recv.value|, i requires 0 <= i < |recv.value| => FieldStructs(recv.value[i]))) else [])
      + SigStructs(sig)
      + (if body.Some? then Concat(seq(|body.value|, i requires 0 <= i < |body.value| => StmtStructs(body.value[i]))) else [])
    case GenDecl(_, _, specs) => Concat(seq(|specs|, i requires 0 <= i < |specs| => SpecStructs(specs[i])))
    case BadDecl => []
  }

  /** The struct types of a file, in the order ast.Inspect meets them. */
  function FileStructs(f: File): seq<seq<Field>> {
    Concat(seq(|f.decls|, i requires 0 <= i < |f.decls| => DeclStructs(f.decls[i])))
  }

  /** The callback on each struct type in turn. */
  function FailuresOf(ss: seq<seq<Field>>): (r: seq<Failure>)
    ensures AllReported(r)
  {
    if |ss| == 0 then [] else FailuresOf(ss[..|ss| - 1]) + StructFailures(ss[|ss| - 1])
  }

  /** Every flagged field of every struct type met is reported. */
  lemma {:induction false} FailuresOfComplete(ss: seq<seq<Field>>)
    ensures forall k, f :: 0 <= k < |ss| && f in ss[k] && Flagged(f) ==> Failure(IntIdsMessage, f) in FailuresOf(ss)
  {
    if |ss| > 0 {
      var init := ss[..|ss| - 1];
      FailuresOfComplete(init);
      var prev, last := FailuresOf(init), StructFailures(ss[|ss| - 1]);
      var r := FailuresOf(ss);
      assert r == prev + last;
      forall k, f | 0 <= k < |ss| && f in ss[k] && Flagged(f)
        ensures Failure(IntIdsMessage, f) in r
      {
        var x := Failure(IntIdsMessage, f);
        if k < |ss| - 1 {
          assert init[k] == ss[k];
          var m :| 0 <= m < |prev| && prev[m] == x;
          assert r[m] == x;
        } else {
          var m :| 0 <= m < |last| && last[m] == x;
          assert r[|prev| + m] == x;
        }
      }
    }
  }

  /** Every failure is about a field of one of the struct types met. */
  lemma {:induction false} FailuresOfSound(ss: seq<seq<Field>>)
    ensures forall k :: 0 <= k < |FailuresOf(ss)| ==> exists j :: 0 <= j < |ss| && FailuresOf(ss)[k].node in ss[j]
  {
    if |ss| > 0 {
      var init := ss[..|ss| - 1];
      FailuresOfSound(init);
      var prev, last := FailuresOf(init), StructFailures(ss[|ss| - 1]);
      var r := FailuresOf(ss);
      assert r == prev + last;
      forall k | 0 <= k < |r|
        ensures exists j :: 0 <= j < |ss| && r[k].node in ss[j]
      {
        if k < |prev| {
          assert r[k] == prev[k];
          var j :| 0 <= j < |init| && prev[k].node in init[j];
          assert init[j] == ss[j];
        } else {
          assert r[k] == last[k - |prev|];
          assert r[k].node in ss[|ss| - 1];
        }
      }
    } else {
      assert FailuresOf(ss) == [];
    }
  }

  /**
    intIdsRule.apply: every flagged field of every struct type the walk meets
    is reported with the rule's message, and every failure is such a field.
  */
  function ApplyIntIds(f: File): (r: seq<Failure>)
    ensures AllReported(r)
    ensures forall k, fl :: 0 <= k < |FileStructs(f)| && fl in FileStructs(f)[k] && Flagged(fl) ==>
              Failure(IntIdsMessage, fl) in r
    ensures forall k :: 0 <= k < |r| ==> exists j :: 0 <= j < |FileStructs(f)| && r[k].node in FileStructs(f)[j]
  {
    FailuresOfComplete(FileStructs(f));
    FailuresOfSound(FileStructs(f));
    FailuresOf(FileStructs(f))
  }

  // ---------------------------------------------------------------------
  // Properties

  /** A struct type is met as one unit: the walk does not enter its fields, so it reports only its own fields. */
  lemma OnlyOwnFields(fields: seq<Field>)
    ensures ExprStructs(StructType(fields)) == [fields]
    ensures forall k :: 0 <= k < |FailuresOf([fields])| ==> FailuresOf([fields])[k].node in fields
  {
    assert [fields][..0] == [];
  }

  /** A struct type declared inside another struct's field is not checked. */
  lemma NestedStructSkipped()
    ensures FailuresOf(ExprStructs(StructType([Field(["UserID"], Some(Ident("int")))])))
            == [Failure(IntIdsMessage, Field(["UserID"], Some(Ident("int"))))]
    ensures FailuresOf(ExprStructs(StructType([Field(["Inner"], Some(StructType([Field(["UserID"], Some(Ident("int")))])))]))) == []
  {
    var inner := Field(["UserID"], Some(Ident("int")));
    UserIDFlagged();
    assert [inner][..0] == [];
    assert [[inner]][..0] == [];
    var outer := Field(["Inner"], Some(StructType([inner])));
    assert !Flagged(outer);
    assert [outer][..0] == [];
    assert [[outer]][..0] == [];
  }

  lemma UserIDFlagged()
    ensures Flagged(Field(["UserID"], Some(Ident("int"))))
  {
    assert "UserID"[4..] == "ID";
  }

  /**
    Struct types inside bodies are met too: a local type declaration, the
    type of a `var`, and a struct type inside a function literal.
  */
  lemma BodyStructsMet(fields: seq<Field>)
    ensures var st := StructType(fields);
      && StmtStructs(DeclStmt([TypeSpec("T", st)])) == [fields]
      && StmtStructs(DeclStmt([ValueSpec(["x"], Some(st), [])])) == [fields]
      && ExprStructs(FuncLit(Signature([], []), [DeclStmt([TypeSpec("T", st)])])) == [fields]
      && ExprStructs(CompositeLit(Some(st), [])) == [fields]
  {
    var st := StructType(fields);
    SingleConcat([fields]);
    var none: seq<seq<seq<Field>>> := [];
    assert Concat(none) == [];
    var ts := TypeSpec("T", st);
    assert SpecStructs(ts) == [fields];
    assert seq(1, i requires 0 <= i < 1 => SpecStructs([ts][i])) == [[fields]];
    var vs := ValueSpec(["x"], Some(st), []);
    assert SpecStructs(vs) == [fields];
    assert seq(1, i requires 0 <= i < 1 => SpecStructs([vs][i])) == [[fields]];
    var ds := DeclStmt([ts]);
    assert StmtStructs(ds) == [fields];
    assert seq(1, i requires 0 <= i < 1 => StmtStructs([ds][i])) == [[fields]];
    var sig := Signature([], []);
    assert SigStructs(sig) == [];
    var cl := CompositeLit(Some(st), []);
  }

  lemma SingleConcat<T>(s: seq<T>)
    ensures Concat([s]) == s
  {
    assert [s][..0] == [];
  }

  /** Fields of other identifier types, of selector types or with two pointers are never reported. */
  lemma OtherTypesNotFlagged(names: seq<string>, t: Expr)
    requires t != Ident("int") && t != Star(Ident("int"))
    ensures !Flagged(Field(names, Some(t)))
  {
  }
}
