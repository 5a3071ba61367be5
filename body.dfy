/**
  The static body analyzer shared by the endpoint extractor and the service
  method inventory: it walks a method body once, carrying an accumulator of
  the HTTP verb, the name of the URL variable, the URL templates found, the
  name/template bindings seen so far and the helper method called.

  The functions below define what one walk computes; the `BodyData` class
  and the `Process…` methods carry it out step by step, as the tools do, and
  are proved to compute exactly those functions.
*/
module BodyAnalysis {
  import opened Options
  import opened Text
  import opened GoAst

  /** A call reduced to its receiver, its function name and its usable arguments. */
  datatype CallInfo = CallInfo(recv: string, funcName: string, args: seq<string>)

  /** A variable name bound to a string (a URL template candidate). */
  datatype Binding = Binding(lhs: string, rhs: string)

  /** What one assignment statement contributes. */
  datatype AssignInfo = AssignInfo(httpMethod: string, urlVarName: string, helperMethod: string, assignments: seq<Binding>)

  /** The analyzer's accumulator. */
  datatype Acc = Acc(httpMethod: string, urlVarName: string, urlFormats: seq<string>, assignments: seq<Binding>, helperMethod: string)

  const EmptyAcc := Acc("", "", [], [], "")
  const NoAssign := AssignInfo("", "", "", [])

  /** The errors the analyzer returns; their texts carry the values shown here. */
  datatype BodyError =
    | TwoHttpMethods(first: string, second: string)
    | HelperNeedsCtx(args: seq<string>)
    | UnhandledStmt(kind: string)
    | UnhandledElse(kind: string)

  /** A returned error, or an abort of the whole process (log.Fatalf, an index out of range). */
  datatype Failure = Error(err: BodyError) | Abort

  /** The accumulator when the walk stopped, and why it stopped early, if it did. */
  datatype Outcome = Outcome(acc: Acc, failure: Option<Failure>)

  /** A helper whose verb and URL are known without looking at its body. */
  datatype Override = Override(httpMethod: string, urlPrefix: string)

  const HelperOverrides: map<string, Override> := map["s.search" := Override("GET", "search/")]

  // ---------------------------------------------------------------------
  // processCallExpr

  /** The argument text for `x.sel`; `http.MethodGet` and its kind become the upper-case verb. */
  function SelectorArg(x: string, sel: string): (r: string)
    ensures HasPrefix(x + "." + sel, "http.Method") ==> |r| == |x + "." + sel| - 11
    ensures HasPrefix(x + "." + sel, "http.Method") ==>
              forall i :: 0 <= i < |r| ==> r[i] == UpperChar((x + "." + sel)[11 + i])
    ensures !HasPrefix(x + "." + sel, "http.Method") ==> r == x + "." + sel
  {
    var name := x + "." + sel;
    if HasPrefix(name, "http.Method") then ToUpper(TrimPrefix(name, "http.Method")) else name
  }

  /** What one call argument contributes to the argument list: nothing, one text, or an abort (`None`). */
  function ArgOf(e: Expr): Option<seq<string>>
    decreases ExprSize(e), 1
  {
    match e
    case ArrayType(_) => Some([])
    case CompositeLit(_, _) => Some([])
    case MapType(_, _) => Some([])
    case Star(_) => Some([])
    case StructType(_) => Some([])
    case BasicLit(v) => Some([v])
    case Ident(n) => Some([n])
    case Selector(x, sel) => Some(if x.Ident? then [SelectorArg(x.name, sel)] else [])
    case Call(_, _) =>
      (match CallOf(e)
       case None => None
       case Some(c) => Some(if c.recv == "fmt" && c.funcName == "Sprintf" && |c.args| > 0 then [c.args[0]] else []))
    case Unary(x) =>
      if x.Ident? then Some([x.name]) else if x.CompositeLit? then Some([]) else None
    case _ => None
  }

  /** The argument list of a call, argument by argument in order. */
  function ArgsOf(es: seq<Expr>): Option<seq<string>>
    decreases ExprsSize(es), 2
  {
    if |es| == 0 then Some([])
    else
      match ArgsOf(es[..|es| - 1])
      case None => None
      case Some(prev) =>
        (match ArgOf(es[|es| - 1])
         case None => None
         case Some(a) => Some(prev + a))
  }

  /** processCallExpr as a function; `None` is an abort. */
  function CallOf(e: Expr): Option<CallInfo>
    requires e.Call?
    decreases ExprSize(e), 0
  {
    match ArgsOf(e.args)
    case None => None
    case Some(args) =>
      match e.fun
      case Ident(n) => Some(CallInfo("", n, args))
      case Selector(x, sel) =>
        (match x
         case Ident(n) => Some(CallInfo(n, sel, args))
         case Paren(_) => Some(CallInfo("", sel, args))
         case Selector(_, s2) => Some(CallInfo(s2, sel, args))
         case Call(_, _) => Some(CallInfo("", sel, args))
         case _ => None)
      case _ => None
  }

  // ---------------------------------------------------------------------
  // processAssignStmt

  /** The names on the left of an assignment; selectors contribute nothing, other forms abort. */
  function LhsNames(lhs: seq<Expr>): Option<seq<string>> {
    if |lhs| == 0 then Some([])
    else
      match LhsNames(lhs[..|lhs| - 1])
      case None => None
      case Some(prev) =>
        (match lhs[|lhs| - 1]
         case Ident(n) => Some(prev + [n])
         case Selector(_, _) => Some(prev)
         case _ => None)
  }

  /** The effect of the well-known call names on the assignment at position `i`. */
  function CallRule(lhs: seq<string>, i: nat, c: CallInfo, st: AssignInfo): Option<AssignInfo> {
    var args := c.args;
    if c.funcName == "addOptions" then
      if |args| == 0 then None
      else
        var v := TrimQuotes(args[0]);
        if v != args[0] then
          if i < |lhs| then Some(st.(assignments := st.assignments + [Binding(lhs[i], v)], urlVarName := lhs[i]))
          else None
        else Some(st.(urlVarName := args[0]))
    else if c.funcName == "Sprintf" then
      if |args| == 0 || i >= |lhs| then None
      else Some(st.(assignments := st.assignments + [Binding(lhs[i], TrimQuotes(args[0]))]))
    else if c.funcName == "NewRequest" then
      if |args| < 2 then None else Some(st.(httpMethod := TrimQuotes(args[0]), urlVarName := args[1]))
    else if c.funcName == "NewUploadRequest" then
      if |args| < 1 then None else Some(st.(httpMethod := "POST", urlVarName := args[0]))
    else if c.funcName == "roundTripWithOptionalFollowRedirect" then
      if |args| < 2 then None else Some(st.(httpMethod := "GET", urlVarName := args[1]))
    else Some(st)
  }

  /** A call on the method's own receiver with `ctx` first is a helper call (or an override). */
  predicate IsHelperCall(recvName: string, c: CallInfo) {
    c.recv == recvName && |c.args| > 1 && c.args[0] == "ctx"
  }

  function HelperRule(recvName: string, c: CallInfo, st: AssignInfo): AssignInfo {
    if IsHelperCall(recvName, c) then
      var full := c.recv + "." + c.funcName;
      if full in HelperOverrides then
        var ov := HelperOverrides[full];
        st.(httpMethod := ov.httpMethod, urlVarName := "u",
            assignments := [Binding("u", ov.urlPrefix + TrimQuotes(c.args[1]))])
      else st.(urlVarName := c.args[1], helperMethod := c.funcName)
    else st
  }

  /** The effect of the right-hand side `e` at position `i`; `None` is an abort. */
  function RhsStep(recvName: string, lhs: seq<string>, i: nat, e: Expr, st: AssignInfo): Option<AssignInfo> {
    match e
    case BasicLit(v) =>
      var t := TrimQuotes(v);
      if HasPrefix(t, "?") then Some(st)
      else if i < |lhs| then Some(st.(assignments := st.assignments + [Binding(lhs[i], t)]))
      else None
    case Call(_, _) =>
      (match CallOf(e)
       case None => None
       case Some(c) =>
         (match CallRule(lhs, i, c, st)
          case None => None
          case Some(st1) => Some(HelperRule(recvName, c, st1))))
    case Binary(_, _) => Some(st)
    case CompositeLit(_, _) => Some(st)
    case FuncLit(_, _) => Some(st)
    case Selector(_, _) => Some(st)
    case Unary(_) => Some(st)
    case TypeAssert(_, _) => Some(st)
    case Ident(_) => Some(st)
    case _ => None
  }

  function RhsFold(recvName: string, lhs: seq<string>, rhs: seq<Expr>): Option<AssignInfo> {
    if |rhs| == 0 then Some(NoAssign)
    else
      match RhsFold(recvName, lhs, rhs[..|rhs| - 1])
      case None => None
      case Some(st) => RhsStep(recvName, lhs, |rhs| - 1, rhs[|rhs| - 1], st)
  }

  /** processAssignStmt as a function; `None` is an abort. */
  function AssignOf(recvName: string, lhs: seq<Expr>, rhs: seq<Expr>): Option<AssignInfo> {
    match LhsNames(lhs)
    case None => None
    case Some(names) => RhsFold(recvName, names, rhs)
  }

  // ---------------------------------------------------------------------
  // parseBody / parseIf

  /** The values bound to `n`, in binding order. */
  function Matching(bs: seq<Binding>, n: string): (r: seq<string>)
    ensures |r| <= |bs|
  {
    if |bs| == 0 then []
    else
      var prev := Matching(bs[..|bs| - 1], n);
      if bs[|bs| - 1].lhs == n then prev + [bs[|bs| - 1].rhs] else prev
  }

  /** A URL argument that is itself a string literal is a template. */
  function UnquotedFormat(u: string): seq<string> {
    match Unquote(u)
    case Some(raw) => [raw]
    case None => []
  }

  function ApplyAssign(acc: Acc, info: AssignInfo): Outcome {
    if acc.httpMethod != "" && info.httpMethod != "" && acc.httpMethod != info.httpMethod then
      Outcome(acc, Some(Error(TwoHttpMethods(acc.httpMethod, info.httpMethod))))
    else
      var asg := acc.assignments + info.assignments;
      var fmts := acc.urlFormats + UnquotedFormat(info.urlVarName);
      var a1 := Acc(if info.httpMethod != "" then info.httpMethod else acc.httpMethod,
                    acc.urlVarName, fmts, asg,
                    if info.helperMethod != "" then info.helperMethod else acc.helperMethod);
      if acc.urlVarName == "" && info.urlVarName != "" then
        Outcome(a1.(urlVarName := info.urlVarName, urlFormats := fmts + Matching(asg, info.urlVarName)), None)
      else Outcome(a1, None)
  }

  function ReturnMatches(acc: Acc, n: string, f: string): Acc {
    var m := Matching(acc.assignments, n);
    if |m| == 0 then acc else acc.(urlVarName := n, urlFormats := acc.urlFormats + m, helperMethod := f)
  }

  function ApplyReturn(recvName: string, acc: Acc, results: seq<Expr>): Outcome {
    if |results| == 0 || !results[0].Call? then Outcome(acc, None)
    else
      match CallOf(results[0])
      case None => Outcome(acc, Some(Abort))
      case Some(c) =>
        if acc.httpMethod == "" && |c.args| > 1 && c.recv == recvName then
          if c.args[0] != "ctx" then Outcome(acc, Some(Error(HelperNeedsCtx(c.args))))
          else if |acc.assignments| == 0 && |acc.urlFormats| == 0 then
            Outcome(acc.(urlFormats := [TrimQuotes(c.args[1])], helperMethod := c.funcName), None)
          else Outcome(ReturnMatches(acc, c.args[1], c.funcName), None)
        else Outcome(acc, None)
  }

  /** parseBody: the statements in order, stopping at the first failure. */
  function Walk(recvName: string, acc: Acc, body: seq<Stmt>): Outcome
    decreases BodySize(body), 1
  {
    if |body| == 0 then Outcome(acc, None)
    else
      var o := Step(recvName, acc, body[0]);
      if o.failure.Some? then o else Walk(recvName, o.acc, body[1..])
  }

  function Step(recvName: string, acc: Acc, s: Stmt): Outcome
    decreases StmtSize(s), 0
  {
    match s
    case Assign(lhs, rhs) =>
      (match AssignOf(recvName, lhs, rhs)
       case None => Outcome(acc, Some(Abort))
       case Some(info) => ApplyAssign(acc, info))
    case If(b, e) => WalkIf(recvName, acc, b, e)
    case Return(results) => ApplyReturn(recvName, acc, results)
    case OtherStmt(kind) => Outcome(acc, Some(Error(UnhandledStmt(kind))))
    case DeclStmt(_) => Outcome(acc, None)
    case DeferStmt(_) => Outcome(acc, None)
    case ExprStmt(_) => Outcome(acc, None)
    case RangeStmt(_, _, _, _) => Outcome(acc, None)
    case SwitchStmt(_, _) => Outcome(acc, None)
  }

  /** parseIf: the then-block, then the else-block or the nested if, into the same accumulator. */
  function WalkIf(recvName: string, acc: Acc, body: seq<Stmt>, els: Else): Outcome
    decreases BodySize(body) + ElseSize(els), 2
  {
    var o := Walk(recvName, acc, body);
    if o.failure.Some? then o
    else
      match els
      case NoElse => o
      case ElseBlock(b2) => Walk(recvName, o.acc, b2)
      case ElseIf(b2, e2) => WalkIf(recvName, o.acc, b2, e2)
      case OtherElse(kind) => Outcome(o.acc, Some(Error(UnhandledElse(kind))))
  }

  // ---------------------------------------------------------------------
  // The analyzer as the tools run it

  lemma {:induction false} BodySizeElement(body: seq<Stmt>, i: nat)
    requires i < |body|
    ensures StmtSize(body[i]) <= BodySize(body)
  {
    if i > 0 {
      BodySizeElement(body[1..], i - 1);
    }
  }

  /** processCallExpr. */
  method ProcessCallExpr(e: Expr) returns (r: Option<CallInfo>)
    requires e.Call?
    ensures r == CallOf(e)
    decreases ExprSize(e), 0
  {
    var args: seq<string> := [];
    var i := 0;
    while i < |e.args|
      invariant 0 <= i <= |e.args|
      invariant ArgsOf(e.args[..i]) == Some(args)
    {
      var arg := e.args[i];
      var more: seq<string> := [];
      match arg {
        case BasicLit(v) =>
          more := [v];
        case Call(_, _) =>
          ExprsSizeElement(e.args, i);
          var inner := ProcessCallExpr(arg);
          if inner.None? {
            ArgsOfAbort(e.args, i);
            return None;
          }
          var c := inner.value;
          if c.recv == "fmt" && c.funcName == "Sprintf" && |c.args| > 0 {
            more := [c.args[0]];
          }
        case Ident(n) =>
          more := [n];
        case Selector(x, sel) =>
          if x.Ident? {
            more := [SelectorArg(x.name, sel)];
          }
        case Unary(x) =>
          if x.Ident? {
            more := [x.name];
          } else if !x.CompositeLit? {
            ArgsOfAbort(e.args, i);
            return None;
          }
        case ArrayType(_) =>
        case CompositeLit(_, _) =>
        case MapType(_, _) =>
        case Star(_) =>
        case StructType(_) =>
        case Paren(_) =>
          ArgsOfAbort(e.args, i);
          return None;
        case KeyValue(_, _) =>
          ArgsOfAbort(e.args, i);
          return None;
        case FuncLit(_, _) =>
          ArgsOfAbort(e.args, i);
          return None;
        case Binary(_, _) =>
          ArgsOfAbort(e.args, i);
          return None;
        case TypeAssert(_, _) =>
          ArgsOfAbort(e.args, i);
          return None;
        case OtherExpr(_) =>
          ArgsOfAbort(e.args, i);
          return None;
      }
      ArgsOfStep(e.args, i, args, more);
      args := args + more;
      i := i + 1;
    }
    assert e.args[..|e.args|] == e.args;
    match e.fun {
      case Ident(n) =>
        r := Some(CallInfo("", n, args));
      case Selector(x, sel) =>
        match x {
          case Ident(n) => r := Some(CallInfo(n, sel, args));
          case Paren(_) => r := Some(CallInfo("", sel, args));
          case Selector(_, s2) => r := Some(CallInfo(s2, sel, args));
          case Call(_, _) => r := Some(CallInfo("", sel, args));
          case _ => r := None;
        }
      case _ =>
        r := None;
    }
  }

  lemma ArgsOfStep(es: seq<Expr>, i: nat, prev: seq<string>, more: seq<string>)
    requires i < |es|
    requires ArgsOf(es[..i]) == Some(prev) && ArgOf(es[i]) == Some(more)
    ensures ArgsOf(es[..i + 1]) == Some(prev + more)
  {
    assert es[..i + 1][..i] == es[..i];
    assert es[..i + 1][i] == es[i];
  }

  /** An argument that aborts makes the whole argument list abort. */
  lemma ArgsOfAbort(es: seq<Expr>, i: nat)
    requires i < |es| && ArgOf(es[i]).None?
    ensures ArgsOf(es).None?
  {
    assert es[..i + 1][..i] == es[..i];
    assert es[..i + 1][i] == es[i];
    PrefixAbortAborts(es, i + 1);
  }

  /** An abort inside the first `i` arguments aborts the whole argument list. */
  lemma {:induction false} PrefixAbortAborts(es: seq<Expr>, i: nat)
    requires 0 < i <= |es|
    requires ArgsOf(es[..i]).None?
    ensures ArgsOf(es).None?
    decreases |es|
  {
    if i < |es| {
      assert es[..|es| - 1][..i] == es[..i];
      PrefixAbortAborts(es[..|es| - 1], i);
    } else {
      assert es[..i] == es;
    }
  }

  lemma LhsNamesStep(lhs: seq<Expr>, i: nat)
    requires i < |lhs|
    ensures LhsNames(lhs[..i + 1]) ==
      match LhsNames(lhs[..i])
      case None => None
      case Some(prev) =>
        (match lhs[i]
         case Ident(n) => Some(prev + [n])
         case Selector(_, _) => Some(prev)
         case _ => None)
  {
    assert lhs[..i + 1][..i] == lhs[..i];
    assert lhs[..i + 1][i] == lhs[i];
  }

  lemma {:induction false} LhsNamesAbort(lhs: seq<Expr>, i: nat)
    requires i <= |lhs| && LhsNames(lhs[..i]).None?
    ensures LhsNames(lhs).None?
    decreases |lhs|
  {
    if i < |lhs| {
      assert lhs[..|lhs| - 1][..i] == lhs[..i];
      LhsNamesAbort(lhs[..|lhs| - 1], i);
    } else {
      assert lhs[..i] == lhs;
    }
  }

  lemma RhsFoldStep(recvName: string, lhs: seq<string>, rhs: seq<Expr>, j: nat, st: AssignInfo)
    requires j < |rhs| && RhsFold(recvName, lhs, rhs[..j]) == Some(st)
    ensures RhsFold(recvName, lhs, rhs[..j + 1]) == RhsStep(recvName, lhs, j, rhs[j], st)
  {
    assert rhs[..j + 1][..j] == rhs[..j];
    assert rhs[..j + 1][j] == rhs[j];
  }

  lemma {:induction false} RhsFoldAbort(recvName: string, lhs: seq<string>, rhs: seq<Expr>, j: nat)
    requires j <= |rhs| && RhsFold(recvName, lhs, rhs[..j]).None?
    ensures RhsFold(recvName, lhs, rhs).None?
    decreases |rhs|
  {
    if j < |rhs| {
      assert rhs[..|rhs| - 1][..j] == rhs[..j];
      RhsFoldAbort(recvName, lhs, rhs[..|rhs| - 1], j);
    } else {
      assert rhs[..j] == rhs;
    }
  }

  /** processAssignStmt; `None` is an abort. */
  method ProcessAssignStmt(recvName: string, lhs: seq<Expr>, rhs: seq<Expr>) returns (r: Option<AssignInfo>)
    ensures r == AssignOf(recvName, lhs, rhs)
  {
    var names: seq<string> := [];
    var i := 0;
    while i < |lhs|
      invariant 0 <= i <= |lhs|
      invariant LhsNames(lhs[..i]) == Some(names)
    {
      LhsNamesStep(lhs, i);
      match lhs[i] {
        case Ident(n) =>
          names := names + [n];
        case Selector(_, _) =>
        case _ =>
          LhsNamesAbort(lhs, i + 1);
          return None;
      }
      i := i + 1;
    }
    assert lhs[..|lhs|] == lhs;

    var st := NoAssign;
    var j := 0;
    while j < |rhs|
      invariant 0 <= j <= |rhs|
      invariant RhsFold(recvName, names, rhs[..j]) == Some(st)
    {
      RhsFoldStep(recvName, names, rhs, j, st);
      var next := ProcessRhs(recvName, names, j, rhs[j], st);
      if next.None? {
        RhsFoldAbort(recvName, names, rhs, j + 1);
        return None;
      }
      st := next.value;
      j := j + 1;
    }
    assert rhs[..|rhs|] == rhs;
    r := Some(st);
  }

  /** One right-hand side of processAssignStmt, at position `j`; `None` is an abort. */
  method ProcessRhs(recvName: string, names: seq<string>, j: nat, e: Expr, st: AssignInfo) returns (r: Option<AssignInfo>)
    ensures r == RhsStep(recvName, names, j, e, st)
  {
    match e {
      case BasicLit(v) =>
        var t := TrimQuotes(v);
        if HasPrefix(t, "?") {
          return Some(st);
        }
        if j >= |names| {
          return None;
        }
        return Some(st.(assignments := st.assignments + [Binding(names[j], t)]));
      case Call(_, _) =>
        var call := ProcessCallExpr(e);
        if call.None? {
          return None;
        }
        var c := call.value;
        var ruled := ApplyCallRule(names, j, c, st);
        if ruled.None? {
          return None;
        }
        var st1 := ruled.value;
        var args := c.args;
        if c.recv == recvName && |args| > 1 && args[0] == "ctx" {
          var full := c.recv + "." + c.funcName;
          if full in HelperOverrides {
            var ov := HelperOverrides[full];
            st1 := st1.(httpMethod := ov.httpMethod, urlVarName := "u",
                        assignments := [Binding("u", ov.urlPrefix + TrimQuotes(args[1]))]);
          } else {
            st1 := st1.(urlVarName := args[1], helperMethod := c.funcName);
          }
        }
        return Some(st1);
      case Binary(_, _) => return Some(st);
      case CompositeLit(_, _) => return Some(st);
      case FuncLit(_, _) => return Some(st);
      case Selector(_, _) => return Some(st);
      case Unary(_) => return Some(st);
      case TypeAssert(_, _) => return Some(st);
      case Ident(_) => return Some(st);
      case _ => return None;
    }
  }

  /** The switch on the well-known call names in processAssignStmt; `None` is an abort. */
  method ApplyCallRule(names: seq<string>, j: nat, c: CallInfo, st: AssignInfo) returns (r: Option<AssignInfo>)
    ensures r == CallRule(names, j, c, st)
  {
    var args := c.args;
    r := Some(st);
    if c.funcName == "addOptions" {
      if |args| == 0 {
        r := None;
      } else {
        var v := TrimQuotes(args[0]);
        if v != args[0] {
          if j < |names| {
            r := Some(st.(assignments := st.assignments + [Binding(names[j], v)], urlVarName := names[j]));
          } else {
            r := None;
          }
        } else {
          r := Some(st.(urlVarName := args[0]));
        }
      }
    } else if c.funcName == "Sprintf" {
      if |args| == 0 || j >= |names| {
        r := None;
      } else {
        r := Some(st.(assignments := st.assignments + [Binding(names[j], TrimQuotes(args[0]))]));
      }
    } else if c.funcName == "NewRequest" {
      if |args| < 2 {
        r := None;
      } else {
        r := Some(st.(httpMethod := TrimQuotes(args[0]), urlVarName := args[1]));
      }
    } else if c.funcName == "NewUploadRequest" {
      if |args| < 1 {
        r := None;
      } else {
        r := Some(st.(httpMethod := "POST", urlVarName := args[0]));
      }
    } else if c.funcName == "roundTripWithOptionalFollowRedirect" {
      if |args| < 2 {
        r := None;
      } else {
        r := Some(st.(httpMethod := "GET", urlVarName := args[1]));
      }
    }
  }

  lemma MatchingStep(bs: seq<Binding>, k: nat, n: string)
    requires k < |bs|
    ensures Matching(bs[..k + 1], n) == Matching(bs[..k], n) + (if bs[k].lhs == n then [bs[k].rhs] else [])
  {
    assert bs[..k + 1][..k] == bs[..k];
    assert bs[..k + 1][k] == bs[k];
  }

  /** Appends to `fmts` the value of every binding of `n`, in binding order. */
  method AppendMatching(fmts: seq<string>, bs: seq<Binding>, n: string) returns (r: seq<string>)
    ensures r == fmts + Matching(bs, n)
  {
    r := fmts;
    var k := 0;
    while k < |bs|
      invariant 0 <= k <= |bs|
      invariant r == fmts + Matching(bs[..k], n)
    {
      MatchingStep(bs, k, n);
      if bs[k].lhs == n {
        r := r + [bs[k].rhs];
      }
      k := k + 1;
    }
    assert bs[..|bs|] == bs;
  }

  /** The loop over the assignments in the return branch: every value bound to `n` becomes a URL format. */
  method ScanMatches(acc: Acc, n: string, f: string) returns (r: Acc)
    ensures r == ReturnMatches(acc, n, f)
  {
    var asg := acc.assignments;
    var uvn, fmts, hlp := acc.urlVarName, acc.urlFormats, acc.helperMethod;
    var k := 0;
    while k < |asg|
      invariant 0 <= k <= |asg|
      invariant fmts == acc.urlFormats + Matching(asg[..k], n)
      invariant |Matching(asg[..k], n)| == 0 ==> uvn == acc.urlVarName && hlp == acc.helperMethod
      invariant |Matching(asg[..k], n)| > 0 ==> uvn == n && hlp == f
    {
      MatchingStep(asg, k, n);
      if asg[k].lhs == n {
        uvn := n;
        fmts := fmts + [asg[k].rhs];
        hlp := f;
      }
      k := k + 1;
    }
    assert asg[..|asg|] == asg;
    if |Matching(asg, n)| == 0 {
      assert fmts == acc.urlFormats;
    }
    r := acc.(urlVarName := uvn, urlFormats := fmts, helperMethod := hlp);
  }

  /** The state a method body is analysed into. */
  class BodyData {
    const receiverName: string
    var httpMethod: string
    var urlVarName: string
    var urlFormats: seq<string>
    var assignments: seq<Binding>
    var helperMethod: string

    function State(): Acc
      reads this
    {
      Acc(httpMethod, urlVarName, urlFormats, assignments, helperMethod)
    }

    constructor (receiverName: string)
      ensures this.receiverName == receiverName
      ensures State() == EmptyAcc
    {
      this.receiverName := receiverName;
      httpMethod, urlVarName, urlFormats, assignments, helperMethod := "", "", [], [], "";
    }

    /** parseBody: the new state and the failure are exactly what `Walk` gives. */
    method ParseBody(body: seq<Stmt>) returns (failure: Option<Failure>)
      modifies this
      ensures Walk(receiverName, old(State()), body) == Outcome(State(), failure)
      decreases BodySize(body), 1
    {
      var i := 0;
      while i < |body|
        invariant 0 <= i <= |body|
        invariant Walk(receiverName, old(State()), body) == Walk(receiverName, State(), body[i..])
      {
        assert body[i..][0] == body[i];
        assert body[i..][1..] == body[i + 1..];
        BodySizeElement(body, i);
        failure := ParseStmt(body[i]);
        if failure.Some? {
          return;
        }
        i := i + 1;
      }
      failure := None;
    }

    /** One statement of parseBody: the new state and the failure are exactly what `Step` gives. */
    method ParseStmt(s: Stmt) returns (failure: Option<Failure>)
      modifies this
      ensures Step(receiverName, old(State()), s) == Outcome(State(), failure)
      decreases StmtSize(s), 0
    {
      failure := None;
      match s {
        case Assign(lhs, rhs) =>
          failure := AssignStmt(lhs, rhs);
        case If(b, e) =>
          failure := ParseIf(b, e);
        case Return(results) =>
          failure := ReturnStmt(results);
        case OtherStmt(kind) =>
          failure := Some(Error(UnhandledStmt(kind)));
        case DeclStmt(_) =>
        case DeferStmt(_) =>
        case ExprStmt(_) =>
        case RangeStmt(_, _, _, _) =>
        case SwitchStmt(_, _) =>
      }
    }

    /** The assignment case of parseBody. */
    method AssignStmt(lhs: seq<Expr>, rhs: seq<Expr>) returns (failure: Option<Failure>)
      modifies this
      ensures Step(receiverName, old(State()), Assign(lhs, rhs)) == Outcome(State(), failure)
    {
      var info := ProcessAssignStmt(receiverName, lhs, rhs);
      if info.None? {
        return Some(Abort);
      }
      var hm := info.value.httpMethod;
      if httpMethod != "" && hm != "" && httpMethod != hm {
        return Some(Error(TwoHttpMethods(httpMethod, hm)));
      }
      Absorb(info.value);
      failure := None;
    }

    /** The accumulator update for an assignment whose verb does not conflict. */
    method Absorb(info: AssignInfo)
      requires !(httpMethod != "" && info.httpMethod != "" && httpMethod != info.httpMethod)
      modifies this
      ensures ApplyAssign(old(State()), info) == Outcome(State(), None)
    {
      var hm, uvn, hlp := info.httpMethod, info.urlVarName, info.helperMethod;
      var verb := if hm != "" then hm else httpMethod;
      var helper := if hlp != "" then hlp else helperMethod;
      var asg := assignments + info.assignments;
      var fmts := urlFormats;
      var raw := Unquote(uvn);
      if raw.Some? {
        fmts := fmts + [raw.value];
      }
      assert fmts == urlFormats + UnquotedFormat(uvn);
      var urlVar := urlVarName;
      if urlVarName == "" && uvn != "" {
        urlVar := uvn;
        fmts := AppendMatching(fmts, asg, uvn);
      }
      httpMethod, urlVarName, urlFormats, assignments, helperMethod := verb, urlVar, fmts, asg, helper;
    }

    /** The return case of parseBody. */
    method ReturnStmt(results: seq<Expr>) returns (failure: Option<Failure>)
      modifies this
      ensures Step(receiverName, old(State()), Return(results)) == Outcome(State(), failure)
    {
      failure := None;
      if |results| > 0 && results[0].Call? {
        var call := ProcessCallExpr(results[0]);
        if call.None? {
          return Some(Abort);
        }
        var c := call.value;
        var args := c.args;
        if httpMethod == "" && |args| > 1 && c.recv == receiverName {
          if args[0] != "ctx" {
            return Some(Error(HelperNeedsCtx(args)));
          }
          if |assignments| == 0 && |urlFormats| == 0 {
            urlFormats := [TrimQuotes(args[1])];
            helperMethod := c.funcName;
          } else {
            ApplyMatches(args[1], c.funcName);
          }
        }
      }
    }

    /** The loop over the bindings of the helper's URL argument `n` in the return case. */
    method ApplyMatches(n: string, f: string)
      modifies this
      ensures State() == ReturnMatches(old(State()), n, f)
    {
      var r := ScanMatches(State(), n, f);
      urlVarName, urlFormats, helperMethod := r.urlVarName, r.urlFormats, r.helperMethod;
    }

    /** parseIf: the new state and the failure are exactly what `WalkIf` gives. */
    method ParseIf(body: seq<Stmt>, els: Else) returns (failure: Option<Failure>)
      modifies this
      ensures WalkIf(receiverName, old(State()), body, els) == Outcome(State(), failure)
      decreases BodySize(body) + ElseSize(els), 2
    {
      failure := ParseBody(body);
      if failure.Some? {
        return;
      }
      match els {
        case NoElse =>
        case ElseBlock(b2) =>
          failure := ParseBody(b2);
        case ElseIf(b2, e2) =>
          failure := ParseIf(b2, e2);
        case OtherElse(kind) =>
          failure := Some(Error(UnhandledElse(kind)));
      }
    }
  }
}
