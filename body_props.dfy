/**
  What the body analyzer promises, stated over the functions that define it
  (and so, through the methods' postconditions, over `BodyData` itself).
*/
module BodyProperties {
  import opened Options
  import opened Text
  import opened GoAst
  import opened BodyAnalysis

  // ---------------------------------------------------------------------
  // Bindings

  /** The values bound to a name are collected in binding order. */
  lemma {:induction false} MatchingAppend(a: seq<Binding>, b: seq<Binding>, n: string)
    ensures Matching(a + b, n) == Matching(a, n) + Matching(b, n)
    decreases |b|
  {
    if |b| == 0 {
      assert a + b == a;
    } else {
      assert (a + b)[..|a + b| - 1] == a + b[..|b| - 1];
      MatchingAppend(a, b[..|b| - 1], n);
    }
  }

  /** Every collected value comes from a binding of that name, and some value is collected iff such a binding exists. */
  lemma {:induction false} MatchingExact(bs: seq<Binding>, n: string)
    ensures forall k :: 0 <= k < |Matching(bs, n)| ==> Binding(n, Matching(bs, n)[k]) in bs
    ensures |Matching(bs, n)| == 0 <==> forall i :: 0 <= i < |bs| ==> bs[i].lhs != n
  {
    if |bs| > 0 {
      var init := bs[..|bs| - 1];
      MatchingExact(init, n);
      assert forall b :: b in init ==> b in bs;
      if bs[|bs| - 1].lhs == n {
        assert bs[|bs| - 1] == Binding(n, bs[|bs| - 1].rhs);
      }
    }
  }

  // ---------------------------------------------------------------------
  // Walks compose

  /** Analysing `b1 + b2` is analysing `b1`, then `b2` from where it stopped. */
  lemma {:induction false} WalkAppend(recvName: string, acc: Acc, b1: seq<Stmt>, b2: seq<Stmt>)
    ensures Walk(recvName, acc, b1 + b2) ==
      var o := Walk(recvName, acc, b1);
      if o.failure.Some? then o else Walk(recvName, o.acc, b2)
    decreases |b1|
  {
    if |b1| == 0 {
      assert b1 + b2 == b2;
    } else {
      assert (b1 + b2)[0] == b1[0];
      assert (b1 + b2)[1..] == b1[1..] + b2;
      var o := Step(recvName, acc, b1[0]);
      if o.failure.None? {
        WalkAppend(recvName, o.acc, b1[1..], b2);
      }
    }
  }

  /** The statements an if/else chain reaches when every else is a block or another if. */
  function Branches(els: Else): seq<Stmt> {
    match els
    case ElseBlock(b) => b
    case ElseIf(b, e) => b + Branches(e)
    case _ => []
  }

  predicate ElseChainHandled(els: Else) {
    match els
    case OtherElse(_) => false
    case ElseIf(_, e) => ElseChainHandled(e)
    case _ => true
  }

  /** An if/else chain is analysed exactly like all of its blocks one after another. */
  lemma {:induction false} IfChainIsSequential(recvName: string, acc: Acc, body: seq<Stmt>, els: Else)
    requires ElseChainHandled(els)
    ensures WalkIf(recvName, acc, body, els) == Walk(recvName, acc, body + Branches(els))
    decreases els
  {
    WalkAppend(recvName, acc, body, Branches(els));
    var o := Walk(recvName, acc, body);
    if o.failure.None? {
      match els {
        case NoElse =>
          assert Walk(recvName, o.acc, []) == o;
        case ElseBlock(b2) =>
        case ElseIf(b2, e2) =>
          IfChainIsSequential(recvName, o.acc, b2, e2);
      }
    }
  }

  /** Every statement kind and else form reached is one the analyzer handles. */
  predicate BodyHandled(body: seq<Stmt>)
    decreases BodySize(body), 1
  {
    forall i :: 0 <= i < |body| ==> (BodySizeElement(body, i); StmtHandled(body[i]))
  }

  predicate StmtHandled(s: Stmt)
    decreases StmtSize(s), 0
  {
    match s
    case OtherStmt(_) => false
    case If(b, e) => BodyHandled(b) && ElseHandled(e)
    case _ => true
  }

  predicate ElseHandled(e: Else)
    decreases ElseSize(e), 1
  {
    match e
    case OtherElse(_) => false
    case ElseBlock(b) => BodyHandled(b)
    case ElseIf(b, e2) => BodyHandled(b) && ElseHandled(e2)
    case NoElse => true
  }

  /** A walk that finishes without failure never met an unknown statement or else form. */
  lemma {:induction false} SuccessMeansHandled(recvName: string, acc: Acc, body: seq<Stmt>)
    requires Walk(recvName, acc, body).failure.None?
    ensures BodyHandled(body)
    decreases BodySize(body), 1
  {
    if |body| > 0 {
      var o := Step(recvName, acc, body[0]);
      StepSuccessMeansHandled(recvName, acc, body[0]);
      SuccessMeansHandled(recvName, o.acc, body[1..]);
      forall i | 0 <= i < |body|
        ensures StmtHandled(body[i])
      {
        if i > 0 {
          assert body[i] == body[1..][i - 1];
        }
      }
    }
  }

  lemma {:induction false} StepSuccessMeansHandled(recvName: string, acc: Acc, s: Stmt)
    requires Step(recvName, acc, s).failure.None?
    ensures StmtHandled(s)
    decreases StmtSize(s), 0
  {
    if s.If? {
      IfSuccessMeansHandled(recvName, acc, s.body, s.els);
    }
  }

  lemma {:induction false} IfSuccessMeansHandled(recvName: string, acc: Acc, body: seq<Stmt>, els: Else)
    requires WalkIf(recvName, acc, body, els).failure.None?
    ensures BodyHandled(body) && ElseHandled(els)
    decreases BodySize(body) + ElseSize(els), 2
  {
    SuccessMeansHandled(recvName, acc, body);
    var o := Walk(recvName, acc, body);
    match els {
      case NoElse =>
      case ElseBlock(b2) =>
        SuccessMeansHandled(recvName, o.acc, b2);
      case ElseIf(b2, e2) =>
        IfSuccessMeansHandled(recvName, o.acc, b2, e2);
    }
  }

  // ---------------------------------------------------------------------
  // Invariants of the accumulator

  /** `inv` survives every assignment and every return statement. */
  ghost predicate StepsPreserve(recvName: string, inv: Acc -> bool) {
    && (forall a, info :: inv(a) ==> inv(ApplyAssign(a, info).acc))
    && (forall a, results :: inv(a) ==> inv(ApplyReturn(recvName, a, results).acc))
  }

  /** An invariant of assignments and returns is an invariant of the whole walk, at any stopping point. */
  lemma {:induction false} WalkPreserves(recvName: string, inv: Acc -> bool, acc: Acc, body: seq<Stmt>)
    requires StepsPreserve(recvName, inv) && inv(acc)
    ensures inv(Walk(recvName, acc, body).acc)
    decreases BodySize(body), 1
  {
    if |body| > 0 {
      StepPreserves(recvName, inv, acc, body[0]);
      var o := Step(recvName, acc, body[0]);
      if o.failure.None? {
        WalkPreserves(recvName, inv, o.acc, body[1..]);
      }
    }
  }

  lemma {:induction false} StepPreserves(recvName: string, inv: Acc -> bool, acc: Acc, s: Stmt)
    requires StepsPreserve(recvName, inv) && inv(acc)
    ensures inv(Step(recvName, acc, s).acc)
    decreases StmtSize(s), 0
  {
    match s {
      case Assign(lhs, rhs) =>
        match AssignOf(recvName, lhs, rhs) {
          case None =>
          case Some(info) =>
            assert inv(ApplyAssign(acc, info).acc);
        }
      case If(b, e) =>
        WalkIfPreserves(recvName, inv, acc, b, e);
      case Return(results) =>
        assert inv(ApplyReturn(recvName, acc, results).acc);
      case _ =>
    }
  }

  lemma {:induction false} WalkIfPreserves(recvName: string, inv: Acc -> bool, acc: Acc, body: seq<Stmt>, els: Else)
    requires StepsPreserve(recvName, inv) && inv(acc)
    ensures inv(WalkIf(recvName, acc, body, els).acc)
    decreases BodySize(body) + ElseSize(els), 2
  {
    WalkPreserves(recvName, inv, acc, body);
    var o := Walk(recvName, acc, body);
    if o.failure.None? {
      match els {
        case NoElse =>
        case ElseBlock(b2) =>
          WalkPreserves(recvName, inv, o.acc, b2);
        case ElseIf(b2, e2) =>
          WalkIfPreserves(recvName, inv, o.acc, b2, e2);
        case OtherElse(_) =>
      }
    }
  }

  /** Once the verb is known it never changes, whether the walk succeeds or stops with an error. */
  lemma VerbNeverChangesOnceSet(recvName: string, acc: Acc, body: seq<Stmt>)
    requires acc.httpMethod != ""
    ensures Walk(recvName, acc, body).acc.httpMethod == acc.httpMethod
  {
    var h := acc.httpMethod;
    var inv := (a: Acc) => a.httpMethod == h;
    assert StepsPreserve(recvName, inv);
    WalkPreserves(recvName, inv, acc, body);
  }

  /** The analyzer only appends: earlier templates and bindings are kept, in order. */
  lemma OnlyAppends(recvName: string, acc: Acc, body: seq<Stmt>)
    ensures acc.urlFormats <= Walk(recvName, acc, body).acc.urlFormats
    ensures acc.assignments <= Walk(recvName, acc, body).acc.assignments
  {
    var inv := (a: Acc) => acc.urlFormats <= a.urlFormats && acc.assignments <= a.assignments;
    forall a, results | inv(a)
      ensures inv(ApplyReturn(recvName, a, results).acc)
    {
      if |a.urlFormats| == 0 {
        assert acc.urlFormats == [];
      }
    }
    assert StepsPreserve(recvName, inv);
    WalkPreserves(recvName, inv, acc, body);
  }

  /** The verbs named by the assignments of a body, those inside if and else blocks included. */
  function VerbsOf(recvName: string, body: seq<Stmt>): (r: set<string>)
    ensures "" !in r
    decreases BodySize(body), 1
  {
    if |body| == 0 then {} else StmtVerbs(recvName, body[0]) + VerbsOf(recvName, body[1..])
  }

  function StmtVerbs(recvName: string, s: Stmt): (r: set<string>)
    ensures "" !in r
    decreases StmtSize(s), 0
  {
    match s
    case Assign(lhs, rhs) =>
      (match AssignOf(recvName, lhs, rhs)
       case Some(info) => if info.httpMethod != "" then {info.httpMethod} else {}
       case None => {})
    case If(b, e) => IfVerbs(recvName, b, e)
    case _ => {}
  }

  function IfVerbs(recvName: string, body: seq<Stmt>, els: Else): (r: set<string>)
    ensures "" !in r
    decreases BodySize(body) + ElseSize(els), 2
  {
    VerbsOf(recvName, body) +
      match els
      case ElseBlock(b2) => VerbsOf(recvName, b2)
      case ElseIf(b2, e2) => IfVerbs(recvName, b2, e2)
      case _ => {}
  }

  /** Once the verb is known, an if chain keeps it. */
  lemma VerbKeptByIf(recvName: string, acc: Acc, body: seq<Stmt>, els: Else)
    requires acc.httpMethod != ""
    ensures WalkIf(recvName, acc, body, els).acc.httpMethod == acc.httpMethod
  {
    var h := acc.httpMethod;
    var inv := (a: Acc) => a.httpMethod == h;
    assert StepsPreserve(recvName, inv);
    WalkIfPreserves(recvName, inv, acc, body, els);
  }

  /**
    A successful walk agrees on one verb: every assignment of the body that
    names a verb, at any depth of if and else blocks, names the final one,
    and a verb known before the walk is the final one.
  */
  lemma {:induction false} SuccessMeansOneVerb(recvName: string, acc: Acc, body: seq<Stmt>)
    requires Walk(recvName, acc, body).failure.None?
    ensures forall v :: v in VerbsOf(recvName, body) ==> v == Walk(recvName, acc, body).acc.httpMethod
    ensures acc.httpMethod != "" ==> Walk(recvName, acc, body).acc.httpMethod == acc.httpMethod
    decreases BodySize(body), 1
  {
    if acc.httpMethod != "" {
      VerbNeverChangesOnceSet(recvName, acc, body);
    }
    if |body| > 0 {
      var o := Step(recvName, acc, body[0]);
      StepOneVerb(recvName, acc, body[0]);
      SuccessMeansOneVerb(recvName, o.acc, body[1..]);
      if o.acc.httpMethod != "" {
        VerbNeverChangesOnceSet(recvName, o.acc, body[1..]);
      }
    }
  }

  lemma {:induction false} StepOneVerb(recvName: string, acc: Acc, s: Stmt)
    requires Step(recvName, acc, s).failure.None?
    ensures forall v :: v in StmtVerbs(recvName, s) ==> v == Step(recvName, acc, s).acc.httpMethod
    decreases StmtSize(s), 0
  {
    match s {
      case If(b, e) =>
        IfOneVerb(recvName, acc, b, e);
      case _ =>
    }
  }

  lemma {:induction false} IfOneVerb(recvName: string, acc: Acc, body: seq<Stmt>, els: Else)
    requires WalkIf(recvName, acc, body, els).failure.None?
    ensures forall v :: v in IfVerbs(recvName, body, els) ==> v == WalkIf(recvName, acc, body, els).acc.httpMethod
    decreases BodySize(body) + ElseSize(els), 2
  {
    SuccessMeansOneVerb(recvName, acc, body);
    var o := Walk(recvName, acc, body);
    match els {
      case NoElse =>
      case ElseBlock(b2) =>
        SuccessMeansOneVerb(recvName, o.acc, b2);
        if o.acc.httpMethod != "" {
          VerbNeverChangesOnceSet(recvName, o.acc, b2);
        }
      case ElseIf(b2, e2) =>
        IfOneVerb(recvName, o.acc, b2, e2);
        if o.acc.httpMethod != "" {
          VerbKeptByIf(recvName, o.acc, b2, e2);
        }
      case OtherElse(_) =>
    }
  }

  /** Two assignments anywhere in a body that name different verbs make the walk fail. */
  lemma ConflictingVerbsFail(recvName: string, acc: Acc, body: seq<Stmt>, v1: string, v2: string)
    requires v1 in VerbsOf(recvName, body) && v2 in VerbsOf(recvName, body) && v1 != v2
    ensures Walk(recvName, acc, body).failure.Some?
  {
    if Walk(recvName, acc, body).failure.None? {
      SuccessMeansOneVerb(recvName, acc, body);
    }
  }

  /**
    After a prefix that succeeds with verb `v1`, an assignment naming another
    verb stops the walk with the "two httpMethod values" error naming both.
  */
  lemma ConflictingVerbsMessage(recvName: string, acc: Acc, pre: seq<Stmt>, s2: Stmt, rest: seq<Stmt>, i2: AssignInfo)
    requires Walk(recvName, acc, pre).failure.None? && Walk(recvName, acc, pre).acc.httpMethod != ""
    requires s2.Assign? && AssignOf(recvName, s2.lhs, s2.rhs) == Some(i2)
    requires i2.httpMethod != "" && i2.httpMethod != Walk(recvName, acc, pre).acc.httpMethod
    ensures Walk(recvName, acc, pre + [s2] + rest).failure
            == Some(Error(TwoHttpMethods(Walk(recvName, acc, pre).acc.httpMethod, i2.httpMethod)))
  {
    var a1 := Walk(recvName, acc, pre).acc;
    assert pre + [s2] + rest == pre + ([s2] + rest);
    WalkAppend(recvName, acc, pre, [s2] + rest);
    assert ([s2] + rest)[0] == s2;
    assert Step(recvName, a1, s2) == Outcome(a1, Some(Error(TwoHttpMethods(a1.httpMethod, i2.httpMethod))));
  }

  // ---------------------------------------------------------------------
  // The URL variable

  /** The first URL variable learned by an assignment is kept by every later assignment (a return of a helper call may still replace it). */
  lemma UrlVarSticky(acc: Acc, info: AssignInfo)
    requires acc.urlVarName != ""
    ensures ApplyAssign(acc, info).acc.urlVarName == acc.urlVarName
  {
  }

  /**
    When an assignment first names the URL variable, every earlier binding of
    it, then every binding of it made by that same statement, becomes a
    template, in binding order, after the literal URL if the variable is one.
  */
  lemma UrlVarRetroactive(acc: Acc, info: AssignInfo)
    requires acc.urlVarName == "" && info.urlVarName != ""
    requires !(acc.httpMethod != "" && info.httpMethod != "" && acc.httpMethod != info.httpMethod)
    ensures ApplyAssign(acc, info).failure.None?
    ensures ApplyAssign(acc, info).acc.urlVarName == info.urlVarName
    ensures ApplyAssign(acc, info).acc.urlFormats ==
      acc.urlFormats + UnquotedFormat(info.urlVarName)
        + Matching(acc.assignments, info.urlVarName) + Matching(info.assignments, info.urlVarName)
  {
    MatchingAppend(acc.assignments, info.assignments, info.urlVarName);
  }

  /** A URL argument that is a quoted literal becomes a template without its quotes. */
  lemma QuotedUrlIsTemplate(acc: Acc, info: AssignInfo, text: string)
    requires '"' !in text
    requires info.urlVarName == "\"" + text + "\""
    requires !(acc.httpMethod != "" && info.httpMethod != "" && acc.httpMethod != info.httpMethod)
    ensures ApplyAssign(acc, info).acc.urlFormats[|acc.urlFormats|] == text
  {
    var u := info.urlVarName;
    assert u[1..|u| - 1] == text;
    assert Unquote(u) == Some(text);
  }

  // ---------------------------------------------------------------------
  // Assignment rules

  /** Assignments of literals bind names, position by position, except query strings; they set nothing else. */
  lemma {:induction false} LiteralAssignments(recvName: string, lhs: seq<string>, rhs: seq<Expr>)
    requires forall j :: 0 <= j < |rhs| ==> rhs[j].BasicLit?
    ensures RhsFold(recvName, lhs, rhs).Some? ==>
      var info := RhsFold(recvName, lhs, rhs).value;
      && info.httpMethod == "" && info.urlVarName == "" && info.helperMethod == ""
      && (forall b :: b in info.assignments ==> !HasPrefix(b.rhs, "?") && b.lhs in lhs)
  {
    if |rhs| > 0 {
      var init := rhs[..|rhs| - 1];
      LiteralAssignments(recvName, lhs, init);
    }
  }

  /** A literal at position `j` of the right-hand side that is recorded but has no name on the left. */
  predicate Unbound(lhs: seq<string>, j: nat, e: Expr) {
    e.BasicLit? && j >= |lhs| && !HasPrefix(TrimQuotes(e.value), "?")
  }

  /** Some element satisfies `p` at its position. */
  predicate AnyAt<T>(xs: seq<T>, p: (nat, T) -> bool) {
    |xs| > 0 && (AnyAt(xs[..|xs| - 1], p) || p(|xs| - 1, xs[|xs| - 1]))
  }

  lemma {:induction false} AnyAtExists<T>(xs: seq<T>, p: (nat, T) -> bool)
    ensures AnyAt(xs, p) <==> exists j :: 0 <= j < |xs| && p(j, xs[j])
  {
    if |xs| > 0 {
      var init := xs[..|xs| - 1];
      AnyAtExists(init, p);
      if exists w :: 0 <= w < |init| && p(w, init[w]) {
        var w :| 0 <= w < |init| && p(w, init[w]);
        assert xs[w] == init[w];
      }
      if exists w :: 0 <= w < |init| && p(w, xs[w]) {
        var w :| 0 <= w < |init| && p(w, xs[w]);
        assert init[w] == xs[w];
      }
    }
  }

  /** An assignment of literals aborts exactly when a recorded literal has no name on the left to bind. */
  lemma LiteralAssignmentsAbort(recvName: string, lhs: seq<string>, rhs: seq<Expr>)
    requires forall j :: 0 <= j < |rhs| ==> rhs[j].BasicLit?
    ensures RhsFold(recvName, lhs, rhs).None? <==> exists j :: 0 <= j < |rhs| && Unbound(lhs, j, rhs[j])
  {
    LiteralFoldAborts(recvName, lhs, rhs);
    AnyAtExists(rhs, (j: nat, e: Expr) => Unbound(lhs, j, e));
  }

  lemma {:induction false} LiteralFoldAborts(recvName: string, lhs: seq<string>, rhs: seq<Expr>)
    requires forall j :: 0 <= j < |rhs| ==> rhs[j].BasicLit?
    ensures RhsFold(recvName, lhs, rhs).None? <==> AnyAt(rhs, (j: nat, e: Expr) => Unbound(lhs, j, e))
  {
    if |rhs| > 0 {
      var init := rhs[..|rhs| - 1];
      var last := |rhs| - 1;
      LiteralFoldAborts(recvName, lhs, init);
      match RhsFold(recvName, lhs, init)
      case None =>
      case Some(st) =>
        LiteralStep(recvName, lhs, last, rhs[last], st);
    }
  }

  /** One literal aborts the assignment exactly when it is recorded and has no name on the left. */
  lemma LiteralStep(recvName: string, lhs: seq<string>, i: nat, e: Expr, st: AssignInfo)
    requires e.BasicLit?
    ensures RhsStep(recvName, lhs, i, e, st).None? <==> Unbound(lhs, i, e)
  {
  }

  lemma SingleAssign(recvName: string, x: string, e: Expr)
    ensures AssignOf(recvName, [Ident(x)], [e]) == RhsStep(recvName, [x], 0, e, NoAssign)
  {
    var l := [Ident(x)];
    assert l[..|l| - 1] == [];
    assert LhsNames(l[..|l| - 1]) == Some([]);
    var none: seq<string> := [];
    assert none + [x] == [x];
    assert LhsNames(l) == Some([x]);
    var r := [e];
    assert r[..|r| - 1] == [];
    assert RhsFold(recvName, [x], r[..|r| - 1]) == Some(NoAssign);
    assert RhsFold(recvName, [x], r) == RhsStep(recvName, [x], 0, e, NoAssign);
  }

  /** The fixed call rules: the verb and URL variable of NewRequest, NewUploadRequest and roundTripWithOptionalFollowRedirect, and what addOptions and Sprintf bind. */
  lemma FixedCallRules(recvName: string, x: string, call: Expr, c: CallInfo)
    requires call.Call? && CallOf(call) == Some(c)
    requires !IsHelperCall(recvName, c)
    ensures c.funcName == "NewRequest" && |c.args| >= 2 ==>
      AssignOf(recvName, [Ident(x)], [call]) == Some(AssignInfo(TrimQuotes(c.args[0]), c.args[1], "", []))
    ensures c.funcName == "NewUploadRequest" && |c.args| >= 1 ==>
      AssignOf(recvName, [Ident(x)], [call]) == Some(AssignInfo("POST", c.args[0], "", []))
    ensures c.funcName == "roundTripWithOptionalFollowRedirect" && |c.args| >= 2 ==>
      AssignOf(recvName, [Ident(x)], [call]) == Some(AssignInfo("GET", c.args[1], "", []))
    ensures c.funcName == "Sprintf" && |c.args| >= 1 ==>
      AssignOf(recvName, [Ident(x)], [call]) == Some(AssignInfo("", "", "", [Binding(x, TrimQuotes(c.args[0]))]))
    ensures c.funcName == "addOptions" && |c.args| >= 1 && TrimQuotes(c.args[0]) != c.args[0] ==>
      AssignOf(recvName, [Ident(x)], [call]) == Some(AssignInfo("", x, "", [Binding(x, TrimQuotes(c.args[0]))]))
    ensures c.funcName == "addOptions" && |c.args| >= 1 && TrimQuotes(c.args[0]) == c.args[0] ==>
      AssignOf(recvName, [Ident(x)], [call]) == Some(AssignInfo("", c.args[0], "", []))
    ensures c.funcName in {"NewRequest", "roundTripWithOptionalFollowRedirect"} && |c.args| < 2 ==>
      AssignOf(recvName, [Ident(x)], [call]).None?
  {
    SingleAssign(recvName, x, call);
    if |c.args| >= 1 {
      var b := Binding(x, TrimQuotes(c.args[0]));
      assert NoAssign.assignments + [b] == [b];
    }
  }

  /** A call on the receiver with `ctx` first: the "s.search" override, or else a helper named by the callee with the URL in arg 1. */
  lemma HelperCallRules(recvName: string, x: string, call: Expr, c: CallInfo)
    requires call.Call? && CallOf(call) == Some(c)
    requires IsHelperCall(recvName, c)
    requires c.funcName !in {"addOptions", "Sprintf", "NewRequest", "NewUploadRequest", "roundTripWithOptionalFollowRedirect"}
    ensures c.recv + "." + c.funcName == "s.search" ==>
      AssignOf(recvName, [Ident(x)], [call]) ==
        Some(AssignInfo("GET", "u", "", [Binding("u", "search/" + TrimQuotes(c.args[1]))]))
    ensures c.recv + "." + c.funcName != "s.search" ==>
      AssignOf(recvName, [Ident(x)], [call]) == Some(AssignInfo("", c.args[1], c.funcName, []))
  {
    SingleAssign(recvName, x, call);
  }

  // ---------------------------------------------------------------------
  // Return rules

  /** Returning a call on the receiver before any verb is known: the `ctx` check, the lone-literal template, or the bindings of arg 1. */
  lemma ReturnHelperRules(recvName: string, acc: Acc, call: Expr, rest: seq<Expr>, c: CallInfo)
    requires call.Call? && CallOf(call) == Some(c)
    requires acc.httpMethod == "" && |c.args| > 1 && c.recv == recvName
    ensures c.args[0] != "ctx" ==>
      ApplyReturn(recvName, acc, [call] + rest) == Outcome(acc, Some(Error(HelperNeedsCtx(c.args))))
    ensures c.args[0] == "ctx" && |acc.assignments| == 0 && |acc.urlFormats| == 0 ==>
      ApplyReturn(recvName, acc, [call] + rest) ==
        Outcome(acc.(urlFormats := [TrimQuotes(c.args[1])], helperMethod := c.funcName), None)
    ensures c.args[0] == "ctx" && (|acc.assignments| > 0 || |acc.urlFormats| > 0) ==>
      var o := ApplyReturn(recvName, acc, [call] + rest);
      && o.failure.None?
      && o.acc.urlFormats == acc.urlFormats + Matching(acc.assignments, c.args[1])
      && (if |Matching(acc.assignments, c.args[1])| > 0
          then o.acc.urlVarName == c.args[1] && o.acc.helperMethod == c.funcName
          else o.acc == acc)
  {
    assert ([call] + rest)[0] == call;
  }

  /** Once a verb is known, a return statement changes nothing. */
  lemma ReturnAfterVerbIsInert(recvName: string, acc: Acc, results: seq<Expr>)
    requires acc.httpMethod != ""
    ensures ApplyReturn(recvName, acc, results).acc == acc
  {
  }

  // ---------------------------------------------------------------------
  // Requests and arguments

  /** A request whose URL is a quoted literal, made first: that literal, unquoted, is the one template. */
  lemma LiteralRequest(recvName: string, x: string, y: string, call: Expr, c: CallInfo, verb: string, url: string)
    requires call.Call? && CallOf(call) == Some(c)
    requires c.funcName == "NewRequest" && |c.args| >= 2 && c.recv != recvName
    requires TrimQuotes(c.args[0]) == verb && verb != ""
    requires c.args[1] == "\"" + url + "\"" && '"' !in url
    ensures Step(recvName, EmptyAcc, Assign([Ident(x), Ident(y)], [call])) == Outcome(Acc(verb, c.args[1], [url], [], ""), None)
  {
    NewRequestRule([x, y], 0, c, NoAssign);
    SingleAssignPair(recvName, x, y, call);
    var info := AssignInfo(verb, c.args[1], "", []);
    assert AssignOf(recvName, [Ident(x), Ident(y)], [call]) == Some(info);
    var u := c.args[1];
    assert u[1..|u| - 1] == url;
    assert UnquotedFormat(u) == [url];
  }

  lemma NewRequestRule(lhs: seq<string>, i: nat, c: CallInfo, st: AssignInfo)
    requires c.funcName == "NewRequest" && |c.args| >= 2
    ensures CallRule(lhs, i, c, st) == Some(st.(httpMethod := TrimQuotes(c.args[0]), urlVarName := c.args[1]))
  {
  }

  /** The text an identifier or a literal argument contributes. */
  function PlainText(e: Expr): string
    requires e.Ident? || e.BasicLit?
  {
    if e.Ident? then e.name else e.value
  }

  function PlainTexts(es: seq<Expr>): seq<string>
    requires forall i :: 0 <= i < |es| ==> es[i].Ident? || es[i].BasicLit?
  {
    seq(|es|, i requires 0 <= i < |es| => PlainText(es[i]))
  }

  /** Identifiers and literals are passed on as written, literals with their quotes, in order. */
  lemma {:induction false} PlainArgs(es: seq<Expr>)
    requires forall i :: 0 <= i < |es| ==> es[i].Ident? || es[i].BasicLit?
    ensures ArgsOf(es) == Some(PlainTexts(es))
  {
    if |es| > 0 {
      var init := es[..|es| - 1];
      PlainArgs(init);
      assert PlainTexts(es) == PlainTexts(init) + [PlainText(es[|es| - 1])];
    }
  }

  lemma SingleAssignPair(recvName: string, x: string, y: string, e: Expr)
    ensures AssignOf(recvName, [Ident(x), Ident(y)], [e]) == RhsStep(recvName, [x, y], 0, e, NoAssign)
  {
    var l := [Ident(x), Ident(y)];
    assert l[..|l| - 1] == [Ident(x)];
    assert [Ident(x)][..0] == [];
    assert LhsNames([Ident(x)][..0]) == Some([]);
    var none: seq<string> := [];
    assert none + [x] == [x];
    assert LhsNames([Ident(x)]) == Some([x]);
    assert [x] + [y] == [x, y];
    assert LhsNames(l) == Some([x, y]);
    var r := [e];
    assert r[..|r| - 1] == [];
    assert RhsFold(recvName, [x, y], r[..|r| - 1]) == Some(NoAssign);
  }
}
