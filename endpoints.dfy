/**
  The endpoint extractor: service discovery from the Client struct, the
  per-declaration filter that runs the body analyzer on service methods, and
  the one-hop resolution of helper methods' verbs.
*/
module Endpoints {
  import opened Options
  import opened Text
  import opened GoAst
  import opened BodyAnalysis

  /** Methods that have no usable URL in their body. */
  const SkipMethods: set<string> := {
    "RepositoriesService.DownloadContents",
    "RepositoriesService.DownloadContentsWithMeta",
    "RepositoriesService.Subscribe",
    "RepositoriesService.Unsubscribe"
  }

  /** Methods allowed to have a value receiver. */
  const ValueReceiverMethods: set<string> := {"String", "Equal", "IsPullRequest"}

  const StdURL := "docs.github.com"

  /** An endpoint found in the github package. */
  datatype Endpoint = Endpoint(
    endpointName: string,
    filename: string,
    serviceName: string,
    urlFormats: seq<string>,
    httpMethod: string,
    helperMethod: string,
    stdRefLines: seq<string>,
    endpointComments: seq<string>)

  // ---------------------------------------------------------------------
  // findClientServices

  /** A field `X *Name` with one name whose type name ends in "Service". */
  predicate IsServiceField(f: Field) {
    && f.typ.Some? && f.typ.value.Star? && |f.names| == 1
    && f.typ.value.x.Ident? && HasSuffix(f.typ.value.x.name, "Service")
  }

  /** The documented `type Client struct { … }` declaration with at least one field. */
  predicate IsClientStruct(d: Decl) {
    && d.GenDecl? && d.isType && |d.specs| == 1 && d.hasDoc
    && d.specs[0].TypeSpec? && d.specs[0].name == "Client"
    && d.specs[0].typ.StructType? && |d.specs[0].typ.fields| > 0
  }

  /** The fields of a Client struct declaration. */
  function ClientFields(d: Decl): seq<Field>
    requires IsClientStruct(d)
  {
    d.specs[0].typ.fields
  }

  /** The type names of the service fields. */
  function ServiceFields(fields: seq<Field>): (r: set<string>)
    ensures forall s :: s in r ==> HasSuffix(s, "Service")
  {
    if |fields| == 0 then {}
    else
      var last := fields[|fields| - 1];
      var prev := ServiceFields(fields[..|fields| - 1]);
      if IsServiceField(last) then prev + {last.typ.value.x.name} else prev
  }

  /** A name is collected exactly when it is the type name of a service field. */
  lemma {:induction false} ServiceFieldsExact(fields: seq<Field>)
    ensures forall i :: 0 <= i < |fields| && IsServiceField(fields[i]) ==> fields[i].typ.value.x.name in ServiceFields(fields)
    ensures forall s :: s in ServiceFields(fields) ==>
              exists i :: 0 <= i < |fields| && IsServiceField(fields[i]) && fields[i].typ.value.x.name == s
  {
    if |fields| > 0 {
      var init := fields[..|fields| - 1];
      ServiceFieldsExact(init);
      assert forall i :: 0 <= i < |fields| - 1 ==> fields[i] == init[i];
      var r := ServiceFields(fields);
      forall s | s in r
        ensures exists i :: 0 <= i < |fields| && IsServiceField(fields[i]) && fields[i].typ.value.x.name == s
      {
        if s in ServiceFields(init) {
          var i :| 0 <= i < |init| && IsServiceField(init[i]) && init[i].typ.value.x.name == s;
          assert fields[i] == init[i];
        } else {
          assert IsServiceField(fields[|fields| - 1]);
        }
      }
    }
  }

  /**
    The service type names of the first Client struct, or `None` when there is
    none: the service fields of the first declaration that is a Client struct.
  */
  function ClientServices(decls: seq<Decl>): (r: Option<set<string>>)
    ensures r.Some? ==> forall s :: s in r.value ==> HasSuffix(s, "Service")
    ensures r.None? <==> forall i :: 0 <= i < |decls| ==> !IsClientStruct(decls[i])
  {
    if |decls| == 0 then None
    else if IsClientStruct(decls[0]) then Some(ServiceFields(ClientFields(decls[0])))
    else
      var r := ClientServices(decls[1..]);
      assert forall i :: 1 <= i < |decls| ==> decls[i] == decls[1..][i - 1];
      r
  }

  /** The services found are those of the first declaration that is a Client struct. */
  lemma {:induction false} ClientServicesFirst(decls: seq<Decl>)
    requires ClientServices(decls).Some?
    ensures exists k :: 0 <= k < |decls| && IsClientStruct(decls[k])
              && (forall j :: 0 <= j < k ==> !IsClientStruct(decls[j]))
              && ClientServices(decls).value == ServiceFields(ClientFields(decls[k]))
  {
    if IsClientStruct(decls[0]) {
      assert ClientServices(decls).value == ServiceFields(ClientFields(decls[0]));
    } else {
      var tail := decls[1..];
      assert ClientServices(decls) == ClientServices(tail);
      ClientServicesFirst(tail);
      var k :| 0 <= k < |tail| && IsClientStruct(tail[k])
               && (forall j :: 0 <= j < k ==> !IsClientStruct(tail[j]))
               && ClientServices(tail).value == ServiceFields(ClientFields(tail[k]));
      assert decls[k + 1] == tail[k];
      forall j | 0 <= j < k + 1 ensures !IsClientStruct(decls[j]) {
        if j > 0 {
          assert decls[j] == tail[j - 1];
        }
      }
    }
  }

  /** The field loop of findClientServices: adds the type name of every service field. */
  method AddServiceFields(fields: seq<Field>, services: set<string>) returns (r: set<string>)
    ensures r == services + ServiceFields(fields)
  {
    r := services;
    var j := 0;
    while j < |fields|
      invariant 0 <= j <= |fields|
      invariant r == services + ServiceFields(fields[..j])
    {
      ServiceFieldsStep(fields, j);
      var f := fields[j];
      if IsServiceField(f) {
        r := r + {f.typ.value.x.name};
      }
      j := j + 1;
    }
    assert fields[..|fields|] == fields;
  }

  /** One more field adds its type name exactly when it is a service field. */
  lemma ServiceFieldsStep(fields: seq<Field>, j: nat)
    requires j < |fields|
    ensures ServiceFields(fields[..j + 1])
            == ServiceFields(fields[..j]) + (if IsServiceField(fields[j]) then {fields[j].typ.value.x.name} else {})
  {
    assert fields[..j + 1][..j] == fields[..j];
  }

  /** The search from `i`: the declaration at `i` if it is the Client struct, else the search from `i + 1`. */
  lemma ClientServicesStep(decls: seq<Decl>, i: nat)
    requires i < |decls|
    ensures ClientServices(decls[i..])
            == if IsClientStruct(decls[i]) then Some(ServiceFields(ClientFields(decls[i])))
               else ClientServices(decls[i + 1..])
  {
    assert decls[i..][0] == decls[i] && decls[i..][1..] == decls[i + 1..];
  }

  /** findClientServices: adds the services of the Client struct to `services`; `found` is false for the error case. */
  method FindClientServices(decls: seq<Decl>, services: set<string>) returns (r: set<string>, found: bool)
    ensures found <==> ClientServices(decls).Some?
    ensures found ==> r == services + ClientServices(decls).value
    ensures !found ==> r == services
  {
    r := services;
    var i := 0;
    while i < |decls|
      invariant 0 <= i <= |decls|
      invariant ClientServices(decls) == ClientServices(decls[i..])
      invariant r == services
    {
      ClientServicesStep(decls, i);
      var d := decls[i];
      if IsClientStruct(d) {
        r := AddServiceFields(ClientFields(d), services);
        return r, true;
      }
      i := i + 1;
    }
    return r, false;
  }

  // ---------------------------------------------------------------------
  // processAST

  datatype AstError =
    | NotPointerReceiver(methodName: string)
    | UnhandledReceiverType
    | ParseBodyError(err: BodyError)
    | NoBodyInfo(filename: string, fullName: string)
    | UnhandledDecl

  /** The result of one file: success, the errors returned, or an abort of the process. */
  datatype AstOutcome = Ok | Failed(errors: seq<AstError>) | Aborted

  /** What one declaration does to the endpoint table. */
  datatype Effect =
    | Skip
    | Collect(e: AstError)
    | Record(key: string, ep: Endpoint)
    | Stop(outcome: AstOutcome)

  /** The doc lines that mention the public documentation site. */
  function StdRefLines(doc: seq<string>): (r: seq<string>)
    ensures |r| <= |doc|
    ensures forall k :: 0 <= k < |r| ==> Contains(r[k], StdURL) && r[k] in doc
    ensures forall k :: 0 <= k < |doc| && Contains(doc[k], StdURL) ==> doc[k] in r
  {
    if |doc| == 0 then []
    else
      var prev := StdRefLines(doc[..|doc| - 1]);
      assert forall k :: 0 <= k < |doc| - 1 ==> doc[k] == doc[..|doc| - 1][k];
      if Contains(doc[|doc| - 1], StdURL) then prev + [doc[|doc| - 1]] else prev
  }

  /** The receiver of a method, when it is `(name *Type)`. */
  predicate PointerReceiver(r: Field) {
    r.typ.Some? && r.typ.value.Star? && |r.names| == 1
  }

  /** An exported endpoint with no verb, and no helper or no template, cannot be resolved. */
  predicate LacksBodyInfo(ep: Endpoint) {
    ep.httpMethod == "" && (ep.helperMethod == "" || |ep.urlFormats| == 0)
  }

  /** What processAST does with one declaration. */
  function DeclEffect(filename: string, d: Decl, services: set<string>): (r: Effect)
    ensures r.Record? ==>
      && d.FuncDecl? && r.ep.endpointName == d.name && r.ep.filename == filename
      && r.key == r.ep.serviceName + "." + r.ep.endpointName
      && r.ep.serviceName in services && r.key !in SkipMethods
    ensures r.Collect? ==>
      d.FuncDecl? && r.e == NotPointerReceiver(d.name) && d.name !in ValueReceiverMethods
    ensures r.Stop? && r.outcome.Failed? ==> |r.outcome.errors| == 1 && !r.outcome.errors[0].NotPointerReceiver?
    ensures d.GenDecl? ==> r == Skip
  {
    match d
    case GenDecl(_, _, _) => Skip
    case BadDecl => Stop(Failed([UnhandledDecl]))
    case FuncDecl(doc, recv, name, _, body) =>
      if recv.None? || |recv.value| != 1 || body.None? then Skip
      else
        var r := recv.value[0];
        if !PointerReceiver(r) then
          if name in ValueReceiverMethods then Skip else Collect(NotPointerReceiver(name))
        else if !r.typ.value.x.Ident? then Stop(Failed([UnhandledReceiverType]))
        else
          var service := r.typ.value.x.name;
          var full := service + "." + name;
          if service !in services || full in SkipMethods then Skip
          else
            var o := Walk(r.names[0], EmptyAcc, body.value);
            match o.failure
            case Some(Abort) => Stop(Aborted)
            case Some(Error(e)) => Stop(Failed([ParseBodyError(e)]))
            case None =>
              Record(full, Endpoint(name, filename, service, o.acc.urlFormats, o.acc.httpMethod,
                                    o.acc.helperMethod, StdRefLines(doc), doc))
  }

  /** processAST over the declarations still to visit, with the table and the errors collected so far. */
  function ProcessDecls(filename: string, decls: seq<Decl>, services: set<string>,
                        eps: map<string, Endpoint>, errs: seq<AstError>): (map<string, Endpoint>, AstOutcome)
  {
    if |decls| == 0 then (eps, if |errs| > 0 then Failed(errs) else Ok)
    else
      match DeclEffect(filename, decls[0], services)
      case Skip => ProcessDecls(filename, decls[1..], services, eps, errs)
      case Collect(e) => ProcessDecls(filename, decls[1..], services, eps, errs + [e])
      case Stop(outcome) => (eps, outcome)
      case Record(key, ep) =>
        var eps1 := eps[key := ep];
        if LacksBodyInfo(ep) && IsExported(ep.endpointName) then (eps1, Failed([NoBodyInfo(filename, key)]))
        else ProcessDecls(filename, decls[1..], services, eps1, errs)
  }

  /** Every entry of `eps` is either carried over from `eps0` or a recorded service method. */
  predicate RecordedFrom(eps0: map<string, Endpoint>, eps: map<string, Endpoint>, services: set<string>) {
    forall k :: k in eps ==>
      (k in eps0 && eps[k] == eps0[k])
      || (k !in SkipMethods && eps[k].serviceName in services && k == eps[k].serviceName + "." + eps[k].endpointName)
  }

  /** Every entry of `eps` is carried over from `eps0` or can be resolved later. */
  predicate Resolvable(eps0: map<string, Endpoint>, eps: map<string, Endpoint>) {
    forall k :: k in eps ==> (k in eps0 && eps[k] == eps0[k]) || !(LacksBodyInfo(eps[k]) && IsExported(eps[k].endpointName))
  }

  /** processAST records only methods of known services, never a skipped method, under `Service.Method`. */
  lemma {:induction false} OnlyServiceMethodsRecorded(filename: string, decls: seq<Decl>, services: set<string>,
                                                       eps0: map<string, Endpoint>, eps: map<string, Endpoint>, errs: seq<AstError>)
    requires RecordedFrom(eps0, eps, services)
    ensures RecordedFrom(eps0, ProcessDecls(filename, decls, services, eps, errs).0, services)
    decreases |decls|
  {
    if |decls| > 0 {
      match DeclEffect(filename, decls[0], services)
      case Skip => OnlyServiceMethodsRecorded(filename, decls[1..], services, eps0, eps, errs);
      case Collect(e) => OnlyServiceMethodsRecorded(filename, decls[1..], services, eps0, eps, errs + [e]);
      case Stop(_) =>
      case Record(key, ep) =>
        var eps1 := eps[key := ep];
        assert RecordedFrom(eps0, eps1, services);
        if !(LacksBodyInfo(ep) && IsExported(ep.endpointName)) {
          OnlyServiceMethodsRecorded(filename, decls[1..], services, eps0, eps1, errs);
        }
    }
  }

  /**
    An exported endpoint with neither a verb nor a usable helper is recorded
    only as the last act of a run that fails with that one error.
  */
  lemma {:induction false} UnresolvableEndpointFails(filename: string, decls: seq<Decl>, services: set<string>,
                                                     eps0: map<string, Endpoint>, eps: map<string, Endpoint>, errs: seq<AstError>)
    requires Resolvable(eps0, eps)
    ensures var (eps', r) := ProcessDecls(filename, decls, services, eps, errs);
      !Resolvable(eps0, eps') ==> r.Failed? && |r.errors| == 1 && r.errors[0].NoBodyInfo? && r.errors[0].filename == filename
    decreases |decls|
  {
    if |decls| > 0 {
      match DeclEffect(filename, decls[0], services)
      case Skip => UnresolvableEndpointFails(filename, decls[1..], services, eps0, eps, errs);
      case Collect(e) => UnresolvableEndpointFails(filename, decls[1..], services, eps0, eps, errs + [e]);
      case Stop(_) =>
      case Record(key, ep) =>
        var eps1 := eps[key := ep];
        if !(LacksBodyInfo(ep) && IsExported(ep.endpointName)) {
          assert Resolvable(eps0, eps1);
          UnresolvableEndpointFails(filename, decls[1..], services, eps0, eps1, errs);
        }
    }
  }

  /** Every error is a value-receiver method that is not on the allow list. */
  predicate ReceiverErrors(errs: seq<AstError>) {
    forall k :: 0 <= k < |errs| ==> errs[k].NotPointerReceiver? && errs[k].methodName !in ValueReceiverMethods
  }

  /** A failed file reports either only value-receiver methods off the allow list, or the one error that stopped it. */
  lemma {:induction false} CollectedErrorsAreReceivers(filename: string, decls: seq<Decl>, services: set<string>,
                                                       eps: map<string, Endpoint>, errs: seq<AstError>)
    requires ReceiverErrors(errs)
    ensures var r := ProcessDecls(filename, decls, services, eps, errs).1;
      r.Failed? ==> ReceiverErrors(r.errors) || (|r.errors| == 1 && !r.errors[0].NotPointerReceiver?)
    decreases |decls|
  {
    var r := ProcessDecls(filename, decls, services, eps, errs).1;
    if |decls| == 0 {
      assert r.Failed? ==> r.errors == errs;
    } else {
      var eff := DeclEffect(filename, decls[0], services);
      match eff
      case Skip =>
        assert r == ProcessDecls(filename, decls[1..], services, eps, errs).1;
        CollectedErrorsAreReceivers(filename, decls[1..], services, eps, errs);
      case Collect(e) =>
        var errs1 := errs + [e];
        assert forall k :: 0 <= k < |errs1| ==> errs1[k] == if k < |errs| then errs[k] else e;
        assert r == ProcessDecls(filename, decls[1..], services, eps, errs1).1;
        CollectedErrorsAreReceivers(filename, decls[1..], services, eps, errs1);
      case Stop(outcome) =>
        assert r == outcome;
      case Record(key, ep) =>
        if !(LacksBodyInfo(ep) && IsExported(ep.endpointName)) {
          assert r == ProcessDecls(filename, decls[1..], services, eps[key := ep], errs).1;
          CollectedErrorsAreReceivers(filename, decls[1..], services, eps[key := ep], errs);
        } else {
          assert r == Failed([NoBodyInfo(filename, key)]);
        }
    }
  }

  /** A file of type and variable declarations only changes nothing and succeeds. */
  lemma {:induction false} GenDeclsOnly(filename: string, decls: seq<Decl>, services: set<string>, eps: map<string, Endpoint>)
    requires forall k :: 0 <= k < |decls| ==> decls[k].GenDecl?
    ensures ProcessDecls(filename, decls, services, eps, []) == (eps, Ok)
    decreases |decls|
  {
    if |decls| > 0 {
      assert decls[0].GenDecl?;
      assert forall k :: 0 <= k < |decls| - 1 ==> decls[1..][k] == decls[k + 1];
      GenDeclsOnly(filename, decls[1..], services, eps);
    }
  }

  // ---------------------------------------------------------------------
  // resolveHelpers

  datatype ResolveError =
    | MissingHelper(helper: string, endpoint: string)
    | HelperWithoutVerb(helper: string, endpoint: string)

  /** The table key of an endpoint's helper. */
  function HelperKey(ep: Endpoint): string {
    ep.serviceName + "." + ep.helperMethod
  }

  /** An endpoint whose verb lives in its helper. */
  predicate NeedsHelper(ep: Endpoint) {
    ep.httpMethod == "" && ep.helperMethod != ""
  }

  /** Equal in everything but the verb. */
  predicate SameButVerb(a: Endpoint, b: Endpoint) {
    a.(httpMethod := "") == b.(httpMethod := "")
  }

  /**
    What holds while resolveHelpers walks the table `orig`: `todo` is not yet
    visited and unchanged, only the verbs of endpoints needing a helper are
    written, and each visited one carries its helper's non-empty verb.
  */
  predicate ResolveInv(orig: map<string, Endpoint>, cur: map<string, Endpoint>, todo: set<string>) {
    && cur.Keys == orig.Keys
    && (forall k :: k in cur ==> SameButVerb(cur[k], orig[k]))
    && (forall k :: k in todo && k in cur ==> cur[k] == orig[k])
    && (forall k :: k in cur && !NeedsHelper(orig[k]) ==> cur[k] == orig[k])
    && (forall k :: k in cur && k !in todo && NeedsHelper(orig[k]) ==>
          HelperKey(orig[k]) in cur && cur[k].httpMethod != ""
          && cur[k].httpMethod == cur[HelperKey(orig[k])].httpMethod)
  }

  /** Visiting an endpoint whose helper has a verb keeps the invariant. */
  lemma ResolveStep(orig: map<string, Endpoint>, cur: map<string, Endpoint>, todo: set<string>, k: string)
    requires ResolveInv(orig, cur, todo) && todo <= cur.Keys && k in todo
    requires NeedsHelper(cur[k]) && HelperKey(cur[k]) in cur && cur[HelperKey(cur[k])].httpMethod != ""
    ensures ResolveInv(orig, cur[k := cur[k].(httpMethod := cur[HelperKey(cur[k])].httpMethod)], todo - {k})
  {
    var h := HelperKey(cur[k]);
    var next := cur[k := cur[k].(httpMethod := cur[h].httpMethod)];
    assert h != k;
    forall j | j in next && j !in todo - {k} && NeedsHelper(orig[j])
      ensures HelperKey(orig[j]) in next && next[j].httpMethod != ""
              && next[j].httpMethod == next[HelperKey(orig[j])].httpMethod
    {
      if j != k {
        // The helper of a visited endpoint has a verb, so it is never the one written now.
        assert HelperKey(orig[j]) != k;
      }
    }
  }

  /** Visiting an endpoint that needs no helper keeps the invariant. */
  lemma ResolveSkip(orig: map<string, Endpoint>, cur: map<string, Endpoint>, todo: set<string>, k: string)
    requires ResolveInv(orig, cur, todo) && todo <= cur.Keys && k in todo
    requires !NeedsHelper(cur[k])
    ensures ResolveInv(orig, cur, todo - {k})
  {
  }

  /**
    What resolveHelpers promises about the table `eps0` it starts from, the
    table `eps` it leaves and its error: only verbs are written, each taken
    from the endpoint's helper; the two errors name an endpoint whose helper
    is missing or has no verb; and when every helper resolves there is no error.
  */
  ghost predicate ResolvedFrom(eps0: map<string, Endpoint>, eps: map<string, Endpoint>, err: Option<ResolveError>) {
    && eps.Keys == eps0.Keys
    && (forall k :: k in eps ==> SameButVerb(eps[k], eps0[k]))
    && (forall k :: k in eps && !NeedsHelper(eps0[k]) ==> eps[k] == eps0[k])
    && (forall k :: k in eps && NeedsHelper(eps0[k]) && eps[k].httpMethod != "" ==>
          HelperKey(eps0[k]) in eps && eps[k].httpMethod == eps[HelperKey(eps0[k])].httpMethod)
    && (err.None? ==> forall k :: k in eps ==> !NeedsHelper(eps[k]))
    && (err.Some? && err.value.MissingHelper? ==>
          err.value.endpoint in eps0 && NeedsHelper(eps0[err.value.endpoint])
          && err.value.helper == HelperKey(eps0[err.value.endpoint]) && err.value.helper !in eps)
    && (err.Some? && err.value.HelperWithoutVerb? ==>
          err.value.endpoint in eps0 && NeedsHelper(eps0[err.value.endpoint])
          && err.value.helper == HelperKey(eps0[err.value.endpoint])
          && err.value.helper in eps && eps[err.value.helper].httpMethod == "")
    && ((forall k :: k in eps0 && NeedsHelper(eps0[k]) ==>
           HelperKey(eps0[k]) in eps0 && eps0[HelperKey(eps0[k])].httpMethod != "")
        ==> err.None?)
  }

  /** Once every endpoint is visited, the walk has resolved the table without error. */
  lemma ResolveDone(eps0: map<string, Endpoint>, eps: map<string, Endpoint>)
    requires ResolveInv(eps0, eps, {})
    ensures ResolvedFrom(eps0, eps, None)
  {
    forall k | k in eps
      ensures !NeedsHelper(eps[k])
    {
      if NeedsHelper(eps0[k]) {
        assert eps[k].httpMethod != "";
      }
    }
  }

  /** Stopping at an unvisited endpoint whose helper is not in the table. */
  lemma ResolveMissing(eps0: map<string, Endpoint>, eps: map<string, Endpoint>, todo: set<string>, k: string)
    requires ResolveInv(eps0, eps, todo) && todo <= eps.Keys && k in todo
    requires NeedsHelper(eps[k]) && HelperKey(eps[k]) !in eps
    ensures ResolvedFrom(eps0, eps, Some(MissingHelper(HelperKey(eps[k]), k)))
  {
    assert eps[k] == eps0[k];
  }

  /** Stopping at an unvisited endpoint whose helper has no verb. */
  lemma ResolveNoVerb(eps0: map<string, Endpoint>, eps: map<string, Endpoint>, todo: set<string>, k: string)
    requires ResolveInv(eps0, eps, todo) && todo <= eps.Keys && k in todo
    requires NeedsHelper(eps[k]) && HelperKey(eps[k]) in eps && eps[HelperKey(eps[k])].httpMethod == ""
    ensures ResolvedFrom(eps0, eps, Some(HelperWithoutVerb(HelperKey(eps[k]), k)))
  {
    var h := HelperKey(eps[k]);
    assert eps[k] == eps0[k];
    // A helper with an empty verb was never written, so the starting table has it empty too.
    assert eps[h] == eps0[h];
  }

  /** resolveHelpers on a table: each endpoint visited once, in an unspecified order. */
  method ResolveEndpoints(eps0: map<string, Endpoint>) returns (eps: map<string, Endpoint>, err: Option<ResolveError>)
    ensures ResolvedFrom(eps0, eps, err)
  {
    eps := eps0;
    var todo := eps.Keys;
    while todo != {}
      invariant todo <= eps.Keys
      invariant ResolveInv(eps0, eps, todo)
      decreases |todo|
    {
      var k :| k in todo;
      var v := eps[k];
      if v.httpMethod == "" && v.helperMethod != "" {
        var full := v.serviceName + "." + v.helperMethod;
        if full !in eps {
          ResolveMissing(eps0, eps, todo, k);
          err := Some(MissingHelper(full, k));
          return;
        }
        var hm := eps[full];
        if hm.httpMethod == "" {
          ResolveNoVerb(eps0, eps, todo, k);
          err := Some(HelperWithoutVerb(full, k));
          return;
        }
        ResolveStep(eps0, eps, todo, k);
        eps := eps[k := v.(httpMethod := hm.httpMethod)];
      } else {
        ResolveSkip(eps0, eps, todo, k);
      }
      todo := todo - {k};
    }
    ResolveDone(eps0, eps);
    err := None;
  }

  /** The table of endpoints, updated in place as the extractor goes. */
  class EndpointTable {
    var endpoints: map<string, Endpoint>

    constructor ()
      ensures endpoints == map[]
    {
      endpoints := map[];
    }

    /** processAST: the new table and the outcome are exactly what `ProcessDecls` gives. */
    method ProcessAST(filename: string, f: File, services: set<string>) returns (r: AstOutcome)
      modifies this
      ensures (endpoints, r) == ProcessDecls(filename, f.decls, services, old(endpoints), [])
    {
      var decls := f.decls;
      var errs: seq<AstError> := [];
      var i := 0;
      while i < |decls|
        invariant 0 <= i <= |decls|
        invariant ProcessDecls(filename, decls, services, old(endpoints), [])
               == ProcessDecls(filename, decls[i..], services, endpoints, errs)
      {
        assert decls[i..][0] == decls[i] && decls[i..][1..] == decls[i + 1..];
        var d := decls[i];
        match d {
          case GenDecl(_, _, _) =>
          case BadDecl =>
            return Failed([UnhandledDecl]);
          case FuncDecl(doc, recv, name, _, body) =>
            if recv.Some? && |recv.value| == 1 && body.Some? {
              var rf := recv.value[0];
              if !PointerReceiver(rf) {
                if name !in ValueReceiverMethods {
                  errs := errs + [NotPointerReceiver(name)];
                }
              } else if !rf.typ.value.x.Ident? {
                return Failed([UnhandledReceiverType]);
              } else {
                var service := rf.typ.value.x.name;
                var full := service + "." + name;
                if service in services && full !in SkipMethods {
                  var bd := new BodyData(rf.names[0]);
                  var failure := bd.ParseBody(body.value);
                  if failure == Some(Abort) {
                    return Aborted;
                  } else if failure.Some? {
                    return Failed([ParseBodyError(failure.value.err)]);
                  }
                  var ep := Endpoint(name, filename, service, bd.urlFormats, bd.httpMethod,
                                     bd.helperMethod, StdRefLines(doc), doc);
                  endpoints := endpoints[full := ep];
                  if LacksBodyInfo(ep) && IsExported(name) {
                    return Failed([NoBodyInfo(filename, full)]);
                  }
                }
              }
            }
        }
        i := i + 1;
      }
      r := if |errs| > 0 then Failed(errs) else Ok;
    }

    /**
      resolveHelpers: every endpoint whose verb lives in its helper gets the
      helper's verb, one hop, visiting the endpoints in an unspecified order.
    */
    method ResolveHelpers() returns (err: Option<ResolveError>)
      modifies this
      ensures ResolvedFrom(old(endpoints), endpoints, err)
    {
      endpoints, err := ResolveEndpoints(endpoints);
    }
  }
}
