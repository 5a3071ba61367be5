/**
  The inventory of service methods in the github package: which methods
  count, what the body analyzer records for each, and the order in which the
  inventory is listed.
*/
module Inventory {
  import opened Options
  import opened Text
  import opened GoAst
  import opened BodyAnalysis
  import opened Sorting

  /** A method found on a service (or on Client). */
  datatype ServiceMethod = ServiceMethod(
    receiverName: string,
    methodName: string,
    filename: string,
    httpMethod: string,
    helper: string,
    urls: seq<string>)
  {
    /** `Receiver.Method`. */
    function Name(): string {
      receiverName + "." + methodName
    }
  }

  /** The last element of a `/`-separated path. */
  function Base(path: string): (r: string)
    ensures '/' !in r && HasSuffix(path, r)
    ensures '/' !in path ==> r == path
    ensures r == path || (|r| < |path| && path[|path| - |r| - 1] == '/')
  {
    if |path| == 0 then ""
    else if path[|path| - 1] == '/' then ""
    else
      var prev := Base(path[..|path| - 1]);
      assert path == path[..|path| - 1] + [path[|path| - 1]];
      prev + [path[|path| - 1]]
  }

  /** A method's name and filename decide where it sorts. */
  function SortKey(m: ServiceMethod): (string, string) {
    (m.filename, m.Name())
  }

  /** The comparison getServiceMethods sorts with: by filename, then by name. */
  predicate MethodLess(a: ServiceMethod, b: ServiceMethod) {
    PairLess(SortKey(a), SortKey(b))
  }

  /** The receiver types that can own inventory methods. */
  predicate ServiceReceiver(receiverType: string) {
    receiverType == "Client" || HasSuffix(receiverType, "Service")
  }

  /** What serviceMethodFromNode makes of one declaration: nothing, a method, or a panic. */
  datatype Found = NotService | Found(m: ServiceMethod) | Panic

  /** serviceMethodFromNode. */
  function MethodFromDecl(filename: string, d: Decl): (r: Found)
    ensures r.Found? ==>
      && d.FuncDecl? && d.recv.Some? && |d.recv.value| == 1
      && d.recv.value[0].typ.Some? && d.recv.value[0].typ.value.Star?
      && d.recv.value[0].typ.value.x.Ident?
      && r.m.receiverName == d.recv.value[0].typ.value.x.name && r.m.methodName == d.name
      && IsExported(r.m.methodName) && IsExported(r.m.receiverName)
      && ServiceReceiver(r.m.receiverName)
      && !(r.m.receiverName == "Client" && Base(filename) == "github.go")
      && r.m.filename == filename
    ensures r.Found? && r.m.helper != "" ==> HasPrefix(r.m.helper, r.m.receiverName + ".")
  {
    match d
    case FuncDecl(_, recv, name, _, body) =>
      if recv.None? || |recv.value| != 1 then NotService
      else
        var rf := recv.value[0];
        if !(rf.typ.Some? && rf.typ.value.Star? && rf.typ.value.x.Ident?) then NotService
        else
          var receiverType := rf.typ.value.x.name;
          if !IsExported(name) || !IsExported(receiverType) then NotService
          else if !ServiceReceiver(receiverType) then NotService
          else if receiverType == "Client" && Base(filename) == "github.go" then NotService
          else if |rf.names| == 0 || body.None? then Panic
          else
            var bare := ServiceMethod(receiverType, name, filename, "", "", []);
            FromAnalysis(bare, Walk(rf.names[0], EmptyAcc, body.value))
    case _ => NotService
  }

  /** What the body analyzer adds to a method: a panic, nothing on an error, else its verb, URLs and helper. */
  function FromAnalysis(bare: ServiceMethod, o: Outcome): (r: Found)
    requires bare.helper == ""
    ensures r.Found? ==> r.m.receiverName == bare.receiverName && r.m.methodName == bare.methodName
                         && r.m.filename == bare.filename
    ensures r.Found? && r.m.helper != "" ==> HasPrefix(r.m.helper, bare.receiverName + ".")
  {
    match o.failure
    case Some(Abort) => Panic
    case Some(Error(_)) => Found(bare)
    case None =>
      Found(bare.(httpMethod := o.acc.httpMethod, urls := o.acc.urlFormats,
                  helper := if o.acc.helperMethod != "" then bare.receiverName + "." + o.acc.helperMethod else ""))
  }

  /** The filters of serviceMethodFromNode: an exported method with one pointer receiver on an exported service type. */
  predicate KeptDecl(filename: string, d: Decl) {
    && d.FuncDecl? && d.recv.Some? && |d.recv.value| == 1
    && d.recv.value[0].typ.Some? && d.recv.value[0].typ.value.Star? && d.recv.value[0].typ.value.x.Ident?
    && var receiverType := d.recv.value[0].typ.value.x.name;
       && IsExported(d.name) && IsExported(receiverType) && ServiceReceiver(receiverType)
       && !(receiverType == "Client" && Base(filename) == "github.go")
  }

  /** A declaration is dropped exactly when it fails one of the filters. */
  lemma KeptIff(filename: string, d: Decl)
    ensures MethodFromDecl(filename, d).NotService? <==> !KeptDecl(filename, d)
  {
  }

  /** When the body analysis fails, the method is still listed, with no verb, no URLs and no helper. */
  lemma FailedAnalysisKeepsMethod(filename: string, d: Decl)
    requires KeptDecl(filename, d) && d.body.Some? && |d.recv.value[0].names| > 0
    requires Walk(d.recv.value[0].names[0], EmptyAcc, d.body.value).failure.Some?
    requires Walk(d.recv.value[0].names[0], EmptyAcc, d.body.value).failure.value.Error?
    ensures var r := MethodFromDecl(filename, d);
      r.Found? && r.m.httpMethod == "" && r.m.urls == [] && r.m.helper == ""
      && r.m.Name() == d.recv.value[0].typ.value.x.name + "." + d.name
  {
  }

  /** When the analysis succeeds, the method carries its verb and URLs, and the helper qualified by the receiver type. */
  lemma AnalysisRecorded(filename: string, d: Decl)
    requires KeptDecl(filename, d) && d.body.Some? && |d.recv.value[0].names| > 0
    requires Walk(d.recv.value[0].names[0], EmptyAcc, d.body.value).failure.None?
    ensures var o := Walk(d.recv.value[0].names[0], EmptyAcc, d.body.value);
      var r := MethodFromDecl(filename, d);
      && r.Found? && r.m.httpMethod == o.acc.httpMethod && r.m.urls == o.acc.urlFormats
      && (o.acc.helperMethod == "" <==> r.m.helper == "")
      && (o.acc.helperMethod != "" ==> r.m.helper == r.m.receiverName + "." + o.acc.helperMethod)
  {
  }

  /** `name()` splits back into receiver and method at its first dot. */
  lemma NameCut(m: ServiceMethod)
    requires '.' !in m.receiverName
    ensures Cut(m.Name(), '.') == (m.receiverName, m.methodName, true)
  {
    IndexOfPrefix(m.receiverName, '.', m.methodName);
    var n := m.Name();
    assert n[..|m.receiverName|] == m.receiverName;
    assert n[|m.receiverName| + 1..] == m.methodName;
  }

  /** serviceMethodFromNode, running the body analyzer on the method. */
  method ServiceMethodFromNode(filename: string, d: Decl) returns (r: Found)
    ensures r == MethodFromDecl(filename, d)
  {
    if !d.FuncDecl? || d.recv.None? || |d.recv.value| != 1 {
      return NotService;
    }
    var rf := d.recv.value[0];
    if !(rf.typ.Some? && rf.typ.value.Star? && rf.typ.value.x.Ident?) {
      return NotService;
    }
    var receiverType := rf.typ.value.x.name;
    var methodName := d.name;
    if !IsExported(methodName) || !IsExported(receiverType) {
      return NotService;
    }
    if receiverType != "Client" && !HasSuffix(receiverType, "Service") {
      return NotService;
    }
    if receiverType == "Client" && Base(filename) == "github.go" {
      return NotService;
    }
    var m := ServiceMethod(receiverType, methodName, filename, "", "", []);
    if |rf.names| == 0 || d.body.None? {
      return Panic;
    }
    r := AnalyzeBody(m, rf.names[0], d.body.value);
  }

  /** The body analyzer run on one method of receiver `recvName`. */
  method AnalyzeBody(bare: ServiceMethod, recvName: string, body: seq<Stmt>) returns (r: Found)
    requires bare.helper == ""
    ensures r == FromAnalysis(bare, Walk(recvName, EmptyAcc, body))
  {
    var bd := new BodyData(recvName);
    var failure := bd.ParseBody(body);
    if failure == Some(Abort) {
      return Panic;
    } else if failure.Some? {
      return Found(bare);
    }
    var m := bare.(httpMethod := bd.httpMethod, urls := [] + bd.urlFormats);
    if bd.helperMethod != "" {
      m := m.(helper := bare.receiverName + "." + bd.helperMethod);
    }
    assert [] + bd.urlFormats == bd.urlFormats;
    return Found(m);
  }

  /** The methods of a list of declarations, in order; `None` when one of them panics. */
  function MethodsOfDecls(filename: string, decls: seq<Decl>): (r: Option<seq<ServiceMethod>>)
    ensures r.Some? ==> |r.value| <= |decls|
    ensures r.Some? ==> forall k :: 0 <= k < |r.value| ==> r.value[k].filename == filename && ServiceReceiver(r.value[k].receiverName)
  {
    if |decls| == 0 then Some([])
    else
      match MethodsOfDecls(filename, decls[..|decls| - 1])
      case None => None
      case Some(prev) =>
        match MethodFromDecl(filename, decls[|decls| - 1])
        case NotService => Some(prev)
        case Panic => None
        case Found(m) => Some(prev + [m])
  }

  /** A source file as listed in the package directory: its path, and its parse when it parses. */
  datatype SourceFile = SourceFile(path: string, parsed: Option<File>)

  datatype FileResult = Methods(ms: seq<ServiceMethod>) | ParseError(path: string) | Panicked

  /** Only non-test Go files are parsed. */
  predicate IsGoSource(path: string) {
    HasSuffix(path, ".go") && !HasSuffix(path, "_test.go")
  }

  /** getServiceMethodsFromFile. */
  function MethodsOfFile(f: SourceFile): (r: FileResult)
    ensures !IsGoSource(f.path) ==> r == Methods([])
    ensures IsGoSource(f.path) && f.parsed.Some? && f.parsed.value.pkg != "github" ==> r == Methods([])
    ensures r.ParseError? <==> IsGoSource(f.path) && f.parsed.None?
    ensures r.Methods? ==> forall k :: 0 <= k < |r.ms| ==> r.ms[k].filename == f.path
  {
    if !IsGoSource(f.path) then Methods([])
    else if f.parsed.None? then ParseError(f.path)
    else if f.parsed.value.pkg != "github" then Methods([])
    else
      match MethodsOfDecls(f.path, f.parsed.value.decls)
      case None => Panicked
      case Some(ms) => Methods(ms)
  }

  /** getServiceMethodsFromFile, visiting the declarations one after the other. */
  method GetServiceMethodsFromFile(f: SourceFile) returns (r: FileResult)
    ensures r == MethodsOfFile(f)
  {
    if !HasSuffix(f.path, ".go") || HasSuffix(f.path, "_test.go") {
      return Methods([]);
    }
    if f.parsed.None? {
      return ParseError(f.path);
    }
    if f.parsed.value.pkg != "github" {
      return Methods([]);
    }
    var decls := f.parsed.value.decls;
    var ms: seq<ServiceMethod> := [];
    var i := 0;
    while i < |decls|
      invariant 0 <= i <= |decls|
      invariant MethodsOfDecls(f.path, decls[..i]) == Some(ms)
    {
      var found := ServiceMethodFromNode(f.path, decls[i]);
      MethodsOfDeclsStep(f.path, decls, i, ms);
      if found.Panic? {
        MethodsOfDeclsPanic(f.path, decls, i + 1);
        assert decls[..|decls|] == decls;
        return Panicked;
      } else if found.Found? {
        ms := ms + [found.m];
      }
      i := i + 1;
    }
    assert decls[..i] == decls;
    r := Methods(ms);
  }

  /** One more declaration extends the methods of a prefix. */
  lemma MethodsOfDeclsStep(filename: string, decls: seq<Decl>, i: nat, ms: seq<ServiceMethod>)
    requires i < |decls| && MethodsOfDecls(filename, decls[..i]) == Some(ms)
    ensures MethodsOfDecls(filename, decls[..i + 1]) ==
      match MethodFromDecl(filename, decls[i])
      case NotService => Some(ms)
      case Panic => None
      case Found(m) => Some(ms + [m])
  {
    assert decls[..i + 1][..i] == decls[..i];
  }

  /** Once a prefix panics, so does every longer prefix. */
  lemma {:induction false} MethodsOfDeclsPanic(filename: string, decls: seq<Decl>, i: nat)
    requires i <= |decls| && MethodsOfDecls(filename, decls[..i]) == None
    ensures MethodsOfDecls(filename, decls[..|decls|]) == None
    decreases |decls| - i
  {
    if i < |decls| {
      assert decls[..i + 1][..i] == decls[..i];
      MethodsOfDeclsPanic(filename, decls, i + 1);
    }
  }

  /** The unsorted inventory of a directory: methods of each file, concatenated in listing order. */
  function AllMethods(files: seq<SourceFile>): (r: FileResult)
    ensures r.Methods? ==> forall k :: 0 <= k < |r.ms| ==> exists j :: 0 <= j < |files| && r.ms[k].filename == files[j].path
  {
    if |files| == 0 then Methods([])
    else
      match AllMethods(files[..|files| - 1])
      case Methods(prev) =>
        var last := MethodsOfFile(files[|files| - 1]);
        if last.Methods? then
          var r := prev + last.ms;
          assert forall k :: 0 <= k < |r| ==> (k < |prev| ==> r[k] == prev[k]) && (k >= |prev| ==> r[k] == last.ms[k - |prev|]);
          assert forall j :: 0 <= j < |files| - 1 ==> files[..|files| - 1][j] == files[j];
          Methods(r)
        else last
      case other => other
  }

  /** Ordering methods by (filename, name) is a strict weak order. */
  lemma MethodLessOrder()
    ensures StrictWeakOrder((a: ServiceMethod, b: ServiceMethod) => MethodLess(a, b))
  {
    PairLessOrder();
    KeyedWeakOrder((a: ServiceMethod, b: ServiceMethod) => MethodLess(a, b), SortKey,
                   (x: (string, string), y: (string, string)) => PairLess(x, y));
  }

  /**
    getServiceMethods: the methods of every file, sorted by filename and then
    by name; the first file that does not parse is the error.
  */
  method GetServiceMethods(files: seq<SourceFile>) returns (r: FileResult)
    ensures AllMethods(files).Methods? <==> r.Methods?
    ensures !r.Methods? ==> r == AllMethods(files)
    ensures r.Methods? ==> SortedBy(r.ms, (a: ServiceMethod, b: ServiceMethod) => MethodLess(a, b))
    ensures r.Methods? ==> multiset(r.ms) == multiset(AllMethods(files).ms)
  {
    var all: seq<ServiceMethod> := [];
    var i := 0;
    while i < |files|
      invariant 0 <= i <= |files|
      invariant AllMethods(files[..i]) == Methods(all)
    {
      assert files[..i + 1][..i] == files[..i];
      var m := GetServiceMethodsFromFile(files[i]);
      if !m.Methods? {
        assert AllMethods(files[..i + 1]) == m;
        AllMethodsFails(files, i + 1);
        assert files[..|files|] == files;
        return m;
      }
      all := all + m.ms;
      i := i + 1;
    }
    assert files[..i] == files;
    MethodLessOrder();
    var sorted := SortedCopy(all, (a: ServiceMethod, b: ServiceMethod) => MethodLess(a, b));
    r := Methods(sorted);
  }

  /** Once a prefix of the listing fails, the listing fails with the same result. */
  lemma {:induction false} AllMethodsFails(files: seq<SourceFile>, i: nat)
    requires i <= |files| && !AllMethods(files[..i]).Methods?
    ensures AllMethods(files[..|files|]) == AllMethods(files[..i])
    decreases |files| - i
  {
    if i < |files| {
      assert files[..i + 1][..i] == files[..i];
      AllMethodsFails(files, i + 1);
    }
  }
}
