/**
  The part of Go's syntax tree the tools look at. Each node kind carries the
  children the tools' walks reach; kinds that they reject or never enter are
  kept as `Other…` cases carrying the name of the kind.
*/
module GoAst {
  import opened Options

  datatype Expr =
    | Ident(name: string)
    /** A literal; `value` is the literal as written, quotes included. */
    | BasicLit(value: string)
    | Call(fun: Expr, args: seq<Expr>)
    | Selector(x: Expr, sel: string)
    | Star(x: Expr)
    | Unary(x: Expr)
    | Paren(x: Expr)
    | StructType(fields: seq<Field>)
    | ArrayType(elt: Expr)
    | MapType(key: Expr, val: Expr)
    /** `T{elts}`; the type is absent inside another composite literal. */
    | CompositeLit(typ: Option<Expr>, elts: seq<Expr>)
    /** `key: value` inside a composite literal. */
    | KeyValue(k: Expr, v: Expr)
    | FuncLit(sig: Signature, body: seq<Stmt>)
    | Binary(x: Expr, y: Expr)
    /** `x.(T)`; the type is absent in a type switch's `x.(type)`. */
    | TypeAssert(x: Expr, typ: Option<Expr>)
    | OtherExpr(kind: string)

  /** One entry of a field list: a struct field, a receiver or a parameter. A missing type is `None`. */
  datatype Field = Field(names: seq<string>, typ: Option<Expr>)

  /** The parameter and result lists of a function. */
  datatype Signature = Signature(params: seq<Field>, results: seq<Field>)

  datatype Stmt =
    | Assign(lhs: seq<Expr>, rhs: seq<Expr>)
    | If(body: seq<Stmt>, els: Else)
    | Return(results: seq<Expr>)
    /** A `var`, `const` or `type` declaration inside a body. */
    | DeclStmt(specs: seq<Spec>)
    | DeferStmt(call: Expr)
    | ExprStmt(x: Expr)
    | RangeStmt(key: Option<Expr>, value: Option<Expr>, x: Expr, body: seq<Stmt>)
    | SwitchStmt(tag: Option<Expr>, clauses: seq<CaseClause>)
    | OtherStmt(kind: string)

  /** The else part of an if statement: absent, a block, another if, or some other node. */
  datatype Else =
    | NoElse
    | ElseBlock(body: seq<Stmt>)
    | ElseIf(body: seq<Stmt>, els: Else)
    | OtherElse(kind: string)

  /** `case list: body` of a switch statement; the default clause has an empty list. */
  datatype CaseClause = CaseClause(list: seq<Expr>, body: seq<Stmt>)

  datatype Spec =
    | TypeSpec(name: string, typ: Expr)
    /** `names typ = values` of a `var` or `const` declaration. */
    | ValueSpec(names: seq<string>, valueType: Option<Expr>, values: seq<Expr>)
    | ImportSpec

  datatype Decl =
    /** A function or method; `recv` is the receiver list and `body` is `None` for an external function. */
    | FuncDecl(doc: seq<string>, recv: Option<seq<Field>>, name: string, sig: Signature, body: Option<seq<Stmt>>)
    | GenDecl(hasDoc: bool, isType: bool, specs: seq<Spec>)
    | BadDecl

  datatype File = File(pkg: string, decls: seq<Decl>)

  /** ast.IsExported: the name starts with an upper-case letter (ASCII letters only). */
  predicate IsExported(name: string) {
    |name| > 0 && 'A' <= name[0] <= 'Z'
  }

  /** Sizes used as termination measures for walks over statement trees. */
  function StmtSize(s: Stmt): nat {
    match s
    case If(body, els) => 1 + BodySize(body) + ElseSize(els)
    case _ => 1
  }

  function BodySize(ss: seq<Stmt>): nat {
    if |ss| == 0 then 0 else StmtSize(ss[0]) + BodySize(ss[1..])
  }

  function ElseSize(e: Else): nat {
    match e
    case ElseBlock(body) => 1 + BodySize(body)
    case ElseIf(body, els) => 1 + BodySize(body) + ElseSize(els)
    case _ => 1
  }

  /** Sizes used as termination measures for walks over expression trees. */
  function ExprSize(e: Expr): (n: nat)
    ensures n >= 1
  {
    match e
    case Call(fun, args) => 1 + ExprSize(fun) + ExprsSize(args)
    case Selector(x, _) => 1 + ExprSize(x)
    case Star(x) => 1 + ExprSize(x)
    case Unary(x) => 1 + ExprSize(x)
    case Paren(x) => 1 + ExprSize(x)
    case _ => 1
  }

  function ExprsSize(es: seq<Expr>): nat {
    if |es| == 0 then 0 else ExprsSize(es[..|es| - 1]) + ExprSize(es[|es| - 1])
  }

  lemma {:induction false} ExprsSizePrefix(es: seq<Expr>, i: nat)
    requires i <= |es|
    ensures ExprsSize(es[..i]) <= ExprsSize(es)
    decreases |es|
  {
    if i < |es| {
      assert es[..|es| - 1][..i] == es[..i];
      ExprsSizePrefix(es[..|es| - 1], i);
    } else {
      assert es[..i] == es;
    }
  }

  lemma {:induction false} ExprsSizeElement(es: seq<Expr>, i: nat)
    requires i < |es|
    ensures ExprSize(es[i]) <= ExprsSize(es)
  {
    ExprsSizePrefix(es, i + 1);
    assert es[..i + 1][..i] == es[..i];
    assert es[..i + 1][i] == es[i];
  }
}
