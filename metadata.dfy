/**
  The metadata of the github package's REST operations: operation IDs
  ("VERB /path"), their normalised form, the order operations are listed in,
  the layered resolution of openapi, manual and override operations, and the
  lookups between methods and operations.
*/
module Metadata {
  import opened Options
  import opened Text
  import opened Sorting

  /** An operation of one layer of metadata.yaml. */
  datatype Operation2 = Operation2(name: string, documentationURL: string, openAPIFiles: seq<string>)

  /** An operation of the old format: its id, the openapi and override doc URLs, and its description files. */
  datatype Operation = Operation(id: string, openAPIDoc: string, overrideDoc: string, openAPIFiles: seq<string>)

  // ---------------------------------------------------------------------
  // Operation IDs

  /** parseID: the text before the first space is the verb, the rest the URL. */
  function ParseID(id: string): (r: (string, string))
    ensures ' ' in id ==> id == r.0 + " " + r.1 && ' ' !in r.0
    ensures ' ' !in id ==> r == (id, "")
  {
    var (verb, url, _) := Cut(id, ' ');
    (verb, url)
  }

  /** A path segment starting with `{` is a template parameter. */
  function NormalizeSegment(p: string): string {
    if |p| > 0 && p[0] == '{' then "*" else p
  }

  function NormalizeSegments(parts: seq<string>): (r: seq<string>)
    ensures |r| == |parts|
    ensures forall i :: 0 <= i < |parts| ==> r[i] == NormalizeSegment(parts[i])
  {
    seq(|parts|, i requires 0 <= i < |parts| => NormalizeSegment(parts[i]))
  }

  /** normalizedURL: every template segment of the path replaced with `*`. */
  function Normalized(u: string): string {
    Join(NormalizeSegments(Split(u, '/')), '/')
  }

  /** normalizedURL, rewriting the segments of the path in place. */
  method NormalizedURL(u: string) returns (n: string)
    ensures n == Normalized(u)
  {
    var parts := Split(u, '/');
    ghost var orig := parts;
    var i := 0;
    while i < |parts|
      invariant 0 <= i <= |parts| && |parts| == |orig|
      invariant forall j :: 0 <= j < i ==> parts[j] == NormalizeSegment(orig[j])
      invariant forall j :: i <= j < |parts| ==> parts[j] == orig[j]
    {
      var p := parts[i];
      if |p| > 0 && p[0] == '{' {
        parts := parts[i := "*"];
      }
      i := i + 1;
    }
    assert parts == NormalizeSegments(orig);
    n := Join(parts, '/');
  }

  /** The segments of a normalised path are the normalised segments, so their number is unchanged. */
  lemma NormalizedSegments(u: string)
    ensures Split(Normalized(u), '/') == NormalizeSegments(Split(u, '/'))
    ensures |Split(Normalized(u), '/')| == |Split(u, '/')|
  {
    var parts := NormalizeSegments(Split(u, '/'));
    forall i | 0 <= i < |parts| ensures '/' !in parts[i] {
      assert parts[i] == "*" || parts[i] == Split(u, '/')[i];
    }
    SplitJoin(parts, '/');
  }

  /** Each segment of the normalised path is `*` for a template and the original segment otherwise. */
  lemma NormalizedSegment(u: string, i: nat)
    requires i < |Split(u, '/')|
    ensures var s := Split(u, '/')[i];
      i < |Split(Normalized(u), '/')| && Split(Normalized(u), '/')[i] == (if |s| > 0 && s[0] == '{' then "*" else s)
  {
    NormalizedSegments(u);
  }

  /** Normalising a normalised path changes nothing. */
  lemma NormalizedIdempotent(u: string)
    ensures Normalized(Normalized(u)) == Normalized(u)
  {
    NormalizedSegments(u);
    var parts := NormalizeSegments(Split(u, '/'));
    assert NormalizeSegments(parts) == parts;
    JoinSplit(Normalized(u), '/');
  }

  /** normalizedID: the verb kept, the URL normalised. */
  function NormalizedID(id: string): string {
    var (verb, url) := ParseID(id);
    verb + " " + Normalized(url)
  }

  /** A normalised ID parses back into the verb and the normalised URL. */
  lemma ParseNormalizedID(id: string)
    ensures ParseID(NormalizedID(id)) == (ParseID(id).0, Normalized(ParseID(id).1))
  {
    var (verb, url) := ParseID(id);
    IndexOfPrefix(verb, ' ', Normalized(url));
    var n := NormalizedID(id);
    assert n[..|verb|] == verb;
    assert n[|verb| + 1..] == Normalized(url);
  }

  /** Normalising a normalised ID changes nothing. */
  lemma NormalizedIDIdempotent(id: string)
    ensures NormalizedID(NormalizedID(id)) == NormalizedID(id)
  {
    ParseNormalizedID(id);
    NormalizedIdempotent(ParseID(id).1);
  }

  // ---------------------------------------------------------------------
  // Ordering

  /** The key an operation ID sorts by: the URL first, then the verb. */
  function IDKey(id: string): (string, string) {
    var (verb, url) := ParseID(id);
    (url, verb)
  }

  /** Less on operation IDs: URLs first, verbs only as a tie-break. */
  predicate IDLess(a: string, b: string) {
    var (lv, lu) := ParseID(a);
    var (rv, ru) := ParseID(b);
    if lu != ru then StrLess(lu, ru) else StrLess(lv, rv)
  }

  /** Operation2.Less. */
  predicate Op2Less(a: Operation2, b: Operation2) {
    IDLess(a.name, b.name)
  }

  /** Operation.Less. */
  predicate OpLess(a: Operation, b: Operation) {
    IDLess(a.id, b.id)
  }

  /** Less compares the (URL, verb) pairs lexicographically. */
  lemma IDLessIsKeyed(a: string, b: string)
    ensures IDLess(a, b) == PairLess(IDKey(a), IDKey(b))
  {
    StrLessIrreflexive(IDKey(a).0);
  }

  /** Operation2.Less is a strict weak order, ties being equal (URL, verb) pairs. */
  lemma Op2LessOrder()
    ensures StrictWeakOrder((a: Operation2, b: Operation2) => Op2Less(a, b))
  {
    PairLessOrder();
    forall a: Operation2, b: Operation2 ensures Op2Less(a, b) == PairLess(IDKey(a.name), IDKey(b.name)) {
      IDLessIsKeyed(a.name, b.name);
    }
    KeyedWeakOrder((a: Operation2, b: Operation2) => Op2Less(a, b), (a: Operation2) => IDKey(a.name),
                   (x: (string, string), y: (string, string)) => PairLess(x, y));
  }

  /** Operation.Less is a strict weak order, ties being equal (URL, verb) pairs. */
  lemma OpLessOrder()
    ensures StrictWeakOrder((a: Operation, b: Operation) => OpLess(a, b))
  {
    PairLessOrder();
    forall a: Operation, b: Operation ensures OpLess(a, b) == PairLess(IDKey(a.id), IDKey(b.id)) {
      IDLessIsKeyed(a.id, b.id);
    }
    KeyedWeakOrder((a: Operation, b: Operation) => OpLess(a, b), (a: Operation) => IDKey(a.id),
                   (x: (string, string), y: (string, string)) => PairLess(x, y));
  }

  // ---------------------------------------------------------------------
  // One operation

  /** Operation.DocumentationURL: the override URL when there is one, else the openapi URL. */
  function DocumentationURL(o: Operation): (r: string)
    ensures o.overrideDoc != "" ==> r == o.overrideDoc
    ensures o.overrideDoc == "" ==> r == o.openAPIDoc
    ensures r == "" <==> o.overrideDoc == "" && o.openAPIDoc == ""
  {
    if o.overrideDoc != "" then o.overrideDoc else o.openAPIDoc
  }

  predicate AnyFile(files: seq<string>, p: string -> bool) {
    exists i :: 0 <= i < |files| && p(files[i])
  }

  predicate PublicFile(f: string) { HasSuffix(f, "api.github.com.json") }
  predicate GhecFile(f: string) { HasSuffix(f, "ghec.json") }
  predicate GhesFile(f: string) { Contains(f, "/ghes") }

  /** Where a plan sorts in the list of plans. */
  function PlanRank(p: string): nat {
    if p == "public" then 0 else if p == "ghec" then 1 else 2
  }

  /** Operation.Plans: the plans whose description files list the operation, in canonical order. */
  function Plans(o: Operation): seq<string> {
    PlanList(AnyFile(o.openAPIFiles, PublicFile), AnyFile(o.openAPIFiles, GhecFile), AnyFile(o.openAPIFiles, GhesFile))
  }

  /** The plans whose flags are set, in canonical order. */
  function PlanList(public: bool, ghec: bool, ghes: bool): (r: seq<string>)
    ensures "public" in r <==> public
    ensures "ghec" in r <==> ghec
    ensures "ghes" in r <==> ghes
    ensures forall i :: 0 <= i < |r| ==> r[i] in ["public", "ghec", "ghes"]
    ensures forall i, j :: 0 <= i < j < |r| ==> PlanRank(r[i]) < PlanRank(r[j])
  {
    var tail := if ghes then ["ghes"] else [];
    var mid := if ghec then ["ghec"] + tail else tail;
    if public then ["public"] + mid else mid
  }

  /** Each plan is listed iff one of the operation's files belongs to it, in canonical order. */
  lemma PlansListed(o: Operation)
    ensures var r := Plans(o);
      && ("public" in r <==> AnyFile(o.openAPIFiles, PublicFile))
      && ("ghec" in r <==> AnyFile(o.openAPIFiles, GhecFile))
      && ("ghes" in r <==> AnyFile(o.openAPIFiles, GhesFile))
      && (forall i, j :: 0 <= i < j < |r| ==> PlanRank(r[i]) < PlanRank(r[j]))
  {
  }

  // ---------------------------------------------------------------------
  // Resolution of the three layers

  /** The last operation of a layer with the given name. */
  function LastNamed(ops: seq<Operation2>, n: string): (r: Option<Operation2>)
    ensures r.Some? ==> r.value in ops && r.value.name == n
    ensures r.None? <==> forall i :: 0 <= i < |ops| ==> ops[i].name != n
  {
    if |ops| == 0 then None
    else if ops[|ops| - 1].name == n then Some(ops[|ops| - 1])
    else
      var r := LastNamed(ops[..|ops| - 1], n);
      assert forall i :: 0 <= i < |ops| - 1 ==> ops[i] == ops[..|ops| - 1][i];
      r
  }

  /** The map seeded with a layer: each name bound to its last operation. */
  function Seed(m: map<string, Operation2>, ops: seq<Operation2>): map<string, Operation2> {
    if |ops| == 0 then m
    else Seed(m, ops[..|ops| - 1])[ops[|ops| - 1].name := ops[|ops| - 1]]
  }

  /** One override applied to the operation it names: non-empty fields replace, empty ones leave alone. */
  function Overridden(base: Operation2, op: Operation2): Operation2 {
    var b1 := if op.documentationURL != "" then base.(documentationURL := op.documentationURL) else base;
    if |op.openAPIFiles| > 0 then b1.(openAPIFiles := op.openAPIFiles) else b1
  }

  /** The overrides applied in order; an override of an unknown name is its own entry. */
  function ApplyOverrides(m: map<string, Operation2>, ovs: seq<Operation2>): map<string, Operation2> {
    if |ovs| == 0 then m
    else OverrideStep(ApplyOverrides(m, ovs[..|ovs| - 1]), ovs[|ovs| - 1])
  }

  /** One override: applied to the operation of its name, or to itself when the name is new. */
  function OverrideStep(m: map<string, Operation2>, op: Operation2): map<string, Operation2> {
    var base := if op.name in m then m[op.name] else op;
    m[op.name := Overridden(base, op)]
  }

  /** resolve: openapi operations, then manual ones replacing them by name, then the overrides. */
  function ResolveOps(openapi: seq<Operation2>, manual: seq<Operation2>, overrides: seq<Operation2>): map<string, Operation2> {
    ApplyOverrides(Seed(Seed(map[], openapi), manual), overrides)
  }

  /** The doc URL of the last override for `n` that has one. */
  function LastDoc(ovs: seq<Operation2>, n: string): (r: Option<string>)
    ensures r.Some? ==> r.value != ""
  {
    if |ovs| == 0 then None
    else if ovs[|ovs| - 1].name == n && ovs[|ovs| - 1].documentationURL != "" then Some(ovs[|ovs| - 1].documentationURL)
    else LastDoc(ovs[..|ovs| - 1], n)
  }

  /** The files of the last override for `n` that lists any. */
  function LastFiles(ovs: seq<Operation2>, n: string): (r: Option<seq<string>>)
    ensures r.Some? ==> |r.value| > 0
  {
    if |ovs| == 0 then None
    else if ovs[|ovs| - 1].name == n && |ovs[|ovs| - 1].openAPIFiles| > 0 then Some(ovs[|ovs| - 1].openAPIFiles)
    else LastFiles(ovs[..|ovs| - 1], n)
  }

  /** Seeding binds each name of the layer to its last operation and keeps the rest. */
  lemma {:induction false} SeedLookup(m: map<string, Operation2>, ops: seq<Operation2>, n: string)
    ensures n in Seed(m, ops) <==> n in m || LastNamed(ops, n).Some?
    ensures LastNamed(ops, n).Some? ==> Seed(m, ops)[n] == LastNamed(ops, n).value
    ensures LastNamed(ops, n).None? && n in m ==> Seed(m, ops)[n] == m[n]
  {
    if |ops| > 0 {
      SeedLookup(m, ops[..|ops| - 1], n);
    }
  }

  /**
    After the overrides, a name is present iff it was before or some override
    names it; its doc URL and files come from the last override that sets
    them, else from the operation it had (empty for a new entry), and an
    operation with no override for it is untouched.
  */
  lemma {:induction false} OverrideLookup(m: map<string, Operation2>, ovs: seq<Operation2>, n: string)
    ensures var r := ApplyOverrides(m, ovs);
      && (n in r <==> n in m || exists i :: 0 <= i < |ovs| && ovs[i].name == n)
      && (n in r ==> (r[n].documentationURL ==
            (if LastDoc(ovs, n).Some? then LastDoc(ovs, n).value else if n in m then m[n].documentationURL else "")))
      && (n in r ==> (r[n].openAPIFiles ==
            (if LastFiles(ovs, n).Some? then LastFiles(ovs, n).value else if n in m then m[n].openAPIFiles else [])))
      && (n in r ==> r[n].name == (if n in m then m[n].name else n))
      && ((forall i :: 0 <= i < |ovs| ==> ovs[i].name != n) && n in m ==> r[n] == m[n])
  {
    if |ovs| > 0 {
      var prefix := ovs[..|ovs| - 1];
      OverrideLookup(m, prefix, n);
      assert forall i :: 0 <= i < |ovs| - 1 ==> prefix[i] == ovs[i];
      var op := ovs[|ovs| - 1];
      var m1 := ApplyOverrides(m, prefix);
      OverrideStepLookup(m1, op, n);
      if op.name == n {
        if n !in m1 {
          // A first mention of a new name: the override itself, whose empty fields are the defaults.
          assert LastDoc(prefix, n).None? by { LastDocNone(prefix, n); }
          assert LastFiles(prefix, n).None? by { LastFilesNone(prefix, n); }
        }
      }
    }
  }

  /** What one override does to the entry of `n`. */
  lemma OverrideStepLookup(m: map<string, Operation2>, op: Operation2, n: string)
    ensures var r := OverrideStep(m, op);
      && (n in r <==> n in m || op.name == n)
      && (op.name != n && n in m ==> r[n] == m[n])
      && (op.name == n ==> r[n] == Overridden(if n in m then m[n] else op, op))
  {
  }

  lemma {:induction false} LastDocNone(ovs: seq<Operation2>, n: string)
    requires forall i :: 0 <= i < |ovs| ==> ovs[i].name != n
    ensures LastDoc(ovs, n).None?
  {
    if |ovs| > 0 {
      LastDocNone(ovs[..|ovs| - 1], n);
    }
  }

  lemma {:induction false} LastFilesNone(ovs: seq<Operation2>, n: string)
    requires forall i :: 0 <= i < |ovs| ==> ovs[i].name != n
    ensures LastFiles(ovs, n).None?
  {
    if |ovs| > 0 {
      LastFilesNone(ovs[..|ovs| - 1], n);
    }
  }

  /** A name with no override resolves to its last manual operation, else to its last openapi operation. */
  lemma ResolveWithoutOverride(openapi: seq<Operation2>, manual: seq<Operation2>, overrides: seq<Operation2>, n: string)
    requires forall i :: 0 <= i < |overrides| ==> overrides[i].name != n
    ensures var r := ResolveOps(openapi, manual, overrides);
      && (n in r <==> LastNamed(manual, n).Some? || LastNamed(openapi, n).Some?)
      && (LastNamed(manual, n).Some? ==> r[n] == LastNamed(manual, n).value)
      && (LastNamed(manual, n).None? && LastNamed(openapi, n).Some? ==> r[n] == LastNamed(openapi, n).value)
  {
    var m0 := Seed(map[], openapi);
    SeedLookup(map[], openapi, n);
    SeedLookup(m0, manual, n);
    OverrideLookup(Seed(m0, manual), overrides, n);
  }

  /** Every resolved operation is filed under its own name. */
  lemma {:induction false} ResolvedUnderOwnName(openapi: seq<Operation2>, manual: seq<Operation2>, overrides: seq<Operation2>, n: string)
    requires n in ResolveOps(openapi, manual, overrides)
    ensures ResolveOps(openapi, manual, overrides)[n].name == n
  {
    var m0 := Seed(map[], openapi);
    SeedLookup(map[], openapi, n);
    SeedLookup(m0, manual, n);
    OverrideLookup(Seed(m0, manual), overrides, n);
  }

  // ---------------------------------------------------------------------
  // addOperation

  /** The first element whose key is `norm`. */
  function FirstKeyed<T>(xs: seq<T>, key: T -> string, norm: string): (r: Option<nat>)
    ensures r.Some? ==> r.value < |xs| && key(xs[r.value]) == norm
                        && forall j :: 0 <= j < r.value ==> key(xs[j]) != norm
    ensures r.None? ==> forall j :: 0 <= j < |xs| ==> key(xs[j]) != norm
  {
    if |xs| == 0 then None
    else if key(xs[0]) == norm then Some(0)
    else
      var rest := FirstKeyed(xs[1..], key, norm);
      assert forall j :: 0 <= j < |xs| - 1 ==> xs[1..][j] == xs[j + 1];
      match rest
      case None => None
      case Some(i) => Some(i + 1)
  }

  /** The key operations are matched by. */
  function OpKey(o: Operation): string {
    NormalizedID(o.id)
  }

  /** The first operation whose normalised ID is `norm`. */
  function FirstMatch(ops: seq<Operation>, norm: string): Option<nat> {
    FirstKeyed(ops, OpKey, norm)
  }

  /** The files of a matched operation after a description file lists it. */
  function WithFile(op: Operation, filename: string, docURL: string): Operation {
    if |op.openAPIFiles| == 0 then op.(openAPIFiles := [filename], openAPIDoc := docURL)
    else if !GhesFile(filename) then op.(openAPIFiles := op.openAPIFiles + [filename])
    else if AnyFile(op.openAPIFiles, GhesFile) then op
    else op.(openAPIFiles := op.openAPIFiles + [filename])
  }

  /** addOperation on the list of old operations. */
  function AddOp(ops: seq<Operation>, filename: string, descID: string, docURL: string): seq<Operation> {
    match FirstMatch(ops, NormalizedID(descID))
    case None => ops + [Operation(descID, docURL, "", [filename])]
    case Some(i) => ops[i := WithFile(ops[i], filename, docURL)]
  }

  /** After addOperation, looking the ID up by its normalised form finds an operation listing the file. */
  lemma AddOpFindable(ops: seq<Operation>, filename: string, descID: string, docURL: string)
    ensures var r := AddOp(ops, filename, descID, docURL);
      && var i := FirstMatch(r, NormalizedID(descID));
      && i.Some?
      && (filename in r[i.value].openAPIFiles || (GhesFile(filename) && AnyFile(r[i.value].openAPIFiles, GhesFile)))
  {
    var r := AddOp(ops, filename, descID, docURL);
    var norm := NormalizedID(descID);
    match FirstMatch(ops, norm)
    case None =>
      FirstMatchUnchanged(ops, r, norm);
      var k := FirstMatch(r, norm);
      assert r[|ops|].id == descID;
      assert k.Some?;
      assert k.value == |ops|;
    case Some(i) =>
      FirstMatchUnchanged(ops, r, norm);
      assert r[i].openAPIFiles == WithFile(ops[i], filename, docURL).openAPIFiles;
  }

  /** Changing or appending operations without changing the IDs before the first match keeps the match. */
  lemma FirstMatchUnchanged(ops: seq<Operation>, r: seq<Operation>, norm: string)
    requires |ops| <= |r|
    requires forall j :: 0 <= j < |ops| ==> r[j].id == ops[j].id
    requires FirstMatch(ops, norm).None? ==> |r| > |ops| && NormalizedID(r[|ops|].id) == norm
    ensures FirstMatch(ops, norm).Some? ==> FirstMatch(r, norm) == FirstMatch(ops, norm)
    ensures FirstMatch(ops, norm).None? ==> FirstMatch(r, norm) == Some(|ops|)
  {
    FirstKeyedUnchanged(ops, r, OpKey, norm);
  }

  /** Changing or appending elements without changing the keys before the first match keeps the match. */
  lemma {:induction false} FirstKeyedUnchanged<T>(xs: seq<T>, ys: seq<T>, key: T -> string, norm: string)
    requires |xs| <= |ys|
    requires forall j :: 0 <= j < |xs| ==> key(ys[j]) == key(xs[j])
    requires FirstKeyed(xs, key, norm).None? ==> |ys| > |xs| && key(ys[|xs|]) == norm
    ensures FirstKeyed(xs, key, norm).Some? ==> FirstKeyed(ys, key, norm) == FirstKeyed(xs, key, norm)
    ensures FirstKeyed(xs, key, norm).None? ==> FirstKeyed(ys, key, norm) == Some(|xs|)
    decreases |xs|
  {
    if |xs| > 0 && key(xs[0]) != norm {
      FirstKeyedUnchanged(xs[1..], ys[1..], key, norm);
    }
  }

  /** How many of the files are GHES descriptions. */
  function GhesCount(files: seq<string>): (n: nat)
    ensures n == 0 <==> !AnyFile(files, GhesFile)
  {
    if |files| == 0 then 0
    else
      var n := GhesCount(files[..|files| - 1]);
      assert forall i :: 0 <= i < |files| - 1 ==> files[i] == files[..|files| - 1][i];
      n + (if GhesFile(files[|files| - 1]) then 1 else 0)
  }

  /** Only the first GHES file is added: an operation never lists a second one through addOperation. */
  lemma AddOpGhesOnce(ops: seq<Operation>, filename: string, descID: string, docURL: string)
    requires forall j :: 0 <= j < |ops| ==> GhesCount(ops[j].openAPIFiles) <= 1
    ensures var r := AddOp(ops, filename, descID, docURL);
      forall j :: 0 <= j < |r| ==> GhesCount(r[j].openAPIFiles) <= 1
  {
    var r := AddOp(ops, filename, descID, docURL);
    assert GhesCount([filename]) <= 1 by {
      assert [filename][..0] == [];
    }
    forall j | 0 <= j < |ops|
      ensures GhesCount(WithFile(ops[j], filename, docURL).openAPIFiles) <= 1
    {
      var files := ops[j].openAPIFiles;
      if |files| > 0 && !(GhesFile(filename) && AnyFile(files, GhesFile)) {
        assert (files + [filename])[..|files|] == files;
      }
    }
  }

  /** An existing file list is only ever extended; an empty one becomes exactly the new file. */
  lemma WithFileExtends(op: Operation, filename: string, docURL: string)
    ensures var r := WithFile(op, filename, docURL);
      && r.id == op.id && r.overrideDoc == op.overrideDoc
      && (|op.openAPIFiles| == 0 ==> r.openAPIFiles == [filename] && r.openAPIDoc == docURL)
      && (|op.openAPIFiles| > 0 ==>
            r.openAPIDoc == op.openAPIDoc && op.openAPIFiles <= r.openAPIFiles && |r.openAPIFiles| <= |op.openAPIFiles| + 1)
      && (|op.openAPIFiles| > 0 && !GhesFile(filename) ==> r.openAPIFiles == op.openAPIFiles + [filename])
  {
  }

  // ---------------------------------------------------------------------
  // Lookups between methods and operations

  /** operationsByID: the old operations with the given ID, in order. */
  function ByID(ops: seq<Operation>, id: string): (r: seq<Operation>)
    ensures forall x :: multiset(r)[x] == (if x.id == id then multiset(ops)[x] else 0)
  {
    if |ops| == 0 then []
    else
      var prev := ByID(ops[..|ops| - 1], id);
      assert ops == ops[..|ops| - 1] + [ops[|ops| - 1]];
      if ops[|ops| - 1].id == id then prev + [ops[|ops| - 1]] else prev
  }

  /** The old operations of each ID in turn. */
  function ByIDs(ops: seq<Operation>, ids: seq<string>): (r: seq<Operation>)
    ensures forall x :: x in r ==> x in ops && x.id in ids
  {
    if |ids| == 0 then []
    else
      var prev := ByIDs(ops, ids[..|ids| - 1]);
      var more := ByID(ops, ids[|ids| - 1]);
      assert forall x :: x in more ==> multiset(more)[x] > 0;
      prev + more
  }

  /** Every old operation appears in `ByIDs` once for each time its ID is listed. */
  lemma {:induction false} ByIDsCount(ops: seq<Operation>, ids: seq<string>, x: Operation)
    ensures multiset(ByIDs(ops, ids))[x] == Times(multiset(ids)[x.id], multiset(ops)[x])
  {
    if |ids| > 0 {
      var init, last := ids[..|ids| - 1], ids[|ids| - 1];
      var prev, more := ByIDs(ops, init), ByID(ops, last);
      ByIDsCount(ops, init, x);
      assert ids == init + [last];
      assert multiset(ByIDs(ops, ids))[x] == multiset(prev)[x] + multiset(more)[x];
      var c, m := multiset(init)[x.id], multiset(ops)[x];
      if x.id == last {
        assert multiset(ids)[x.id] == c + 1;
        assert multiset(more)[x] == m;
        MulSucc(c, m);
      } else {
        assert multiset(ids)[x.id] == c;
        assert multiset(more)[x] == 0;
      }
    }
  }

  /** `n` copies of `m`. */
  function Times(n: nat, m: nat): nat {
    if n == 0 then 0 else Times(n - 1, m) + m
  }

  lemma MulSucc(c: nat, m: nat)
    ensures Times(c + 1, m) == Times(c, m) + m
  {
  }

  lemma SameMembers<T>(a: seq<T>, b: seq<T>)
    requires multiset(a) == multiset(b)
    ensures forall x :: x in a ==> x in b
  {
    forall x | x in a ensures x in b {
      assert x in multiset(a);
    }
  }

  /** The operation IDs listed for a method, none for an unknown method. */
  function IDsOf(methodOperations: map<string, seq<string>>, methodName: string): seq<string> {
    if methodName in methodOperations then methodOperations[methodName] else []
  }

  /** The metadata file's contents and the memo of resolved operations. */
  class MetadataFile {
    var methodOperations: map<string, seq<string>>
    var undocumentedMethods: seq<string>
    var manualOps: seq<Operation2>
    var overrideOps: seq<Operation2>
    var openapiOps: seq<Operation2>
    var oldOps: seq<Operation>
    var resolvedOps: Option<map<string, Operation2>>

    constructor (methodOperations: map<string, seq<string>>, undocumentedMethods: seq<string>,
                 manualOps: seq<Operation2>, overrideOps: seq<Operation2>, openapiOps: seq<Operation2>,
                 oldOps: seq<Operation>)
      ensures this.methodOperations == methodOperations && this.undocumentedMethods == undocumentedMethods
      ensures this.manualOps == manualOps && this.overrideOps == overrideOps && this.openapiOps == openapiOps
      ensures this.oldOps == oldOps && resolvedOps == None
    {
      this.methodOperations := methodOperations;
      this.undocumentedMethods := undocumentedMethods;
      this.manualOps := manualOps;
      this.overrideOps := overrideOps;
      this.openapiOps := openapiOps;
      this.oldOps := oldOps;
      resolvedOps := None;
    }

    /** The contents of the file, everything but the memo. */
    function Contents(): (seq<Operation2>, seq<Operation2>, seq<Operation2>, seq<Operation>, map<string, seq<string>>, seq<string>)
      reads this
    {
      (openapiOps, manualOps, overrideOps, oldOps, methodOperations, undocumentedMethods)
    }

    /** resolve: computed once; a later call changes nothing. */
    method Resolve()
      modifies this
      ensures Contents() == old(Contents())
      ensures old(resolvedOps).Some? ==> resolvedOps == old(resolvedOps)
      ensures old(resolvedOps).None? ==> resolvedOps == Some(ResolveOps(openapiOps, manualOps, overrideOps))
    {
      if resolvedOps.Some? {
        return;
      }
      var seeded := SeedLayer(map[], openapiOps);
      var layered := SeedLayer(seeded, manualOps);
      var r := OverrideLayer(layered, overrideOps);
      resolvedOps := Some(r);
    }

    /** Operations: every resolved operation once, sorted by URL and then verb. */
    method Operations() returns (ops: seq<Operation2>)
      modifies this
      ensures Contents() == old(Contents())
      ensures resolvedOps.Some? && (old(resolvedOps).Some? ==> resolvedOps == old(resolvedOps))
      ensures old(resolvedOps).None? ==> resolvedOps == Some(ResolveOps(openapiOps, manualOps, overrideOps))
      ensures |ops| == |resolvedOps.value|
      ensures forall n :: n in resolvedOps.value ==> resolvedOps.value[n] in ops
      ensures forall i :: 0 <= i < |ops| ==> ops[i] in resolvedOps.value.Values
      ensures SortedBy(ops, (a: Operation2, b: Operation2) => Op2Less(a, b))
    {
      Resolve();
      var collected := CollectValues(resolvedOps.value);
      ops := SortOperations(collected);
      assert forall i :: 0 <= i < |ops| ==> ops[i] in collected;
    }

    /** addOperation: the old operations become `AddOp` of them; nothing else changes. */
    method AddOperation(filename: string, descID: string, docURL: string)
      modifies this
      ensures oldOps == AddOp(old(oldOps), filename, descID, docURL)
      ensures (openapiOps, manualOps, overrideOps, methodOperations, undocumentedMethods, resolvedOps)
           == old((openapiOps, manualOps, overrideOps, methodOperations, undocumentedMethods, resolvedOps))
    {
      oldOps := AddOpTo(oldOps, filename, descID, docURL);
    }

    /** OperationMethods: each method as often as it lists the operation, in no particular order. */
    method OperationMethods(opID: string) returns (methods: seq<string>)
      ensures forall x :: multiset(methods)[x] == (if x in methodOperations then multiset(methodOperations[x])[opID] else 0)
    {
      var todo := methodOperations.Keys;
      methods := [];
      while todo != {}
        invariant todo <= methodOperations.Keys
        invariant forall x :: (multiset(methods)[x] ==
          (if x in methodOperations && x !in todo then multiset(methodOperations[x])[opID] else 0))
        decreases |todo|
      {
        var name :| name in todo;
        methods := AppendPerMatch(methods, name, methodOperations[name], opID);
        todo := todo - {name};
      }
    }

    /** operationsByID: the old operations with exactly this ID, in file order. */
    method OperationsByID(id: string) returns (ops: seq<Operation>)
      ensures ops == ByID(oldOps, id)
    {
      ops := [];
      var i := 0;
      while i < |oldOps|
        invariant 0 <= i <= |oldOps|
        invariant ops == ByID(oldOps[..i], id)
      {
        assert oldOps[..i + 1][..i] == oldOps[..i];
        if oldOps[i].id == id {
          ops := ops + [oldOps[i]];
        }
        i := i + 1;
      }
      assert oldOps[..i] == oldOps;
    }

    /** The old operations of each of `ids` in turn. */
    method OperationsByIDs(ids: seq<string>) returns (all: seq<Operation>)
      ensures all == ByIDs(oldOps, ids)
    {
      all := [];
      var i := 0;
      while i < |ids|
        invariant 0 <= i <= |ids|
        invariant all == ByIDs(oldOps, ids[..i])
      {
        assert ids[..i + 1][..i] == ids[..i];
        var more := OperationsByID(ids[i]);
        all := all + more;
        i := i + 1;
      }
      assert ids[..i] == ids;
    }

    /** operationsForMethod: the old operations of each ID listed for the method, sorted by URL and verb. */
    method OperationsForMethod(methodName: string) returns (ops: seq<Operation>)
      ensures multiset(ops) == multiset(ByIDs(oldOps, IDsOf(methodOperations, methodName)))
      ensures SortedBy(ops, (a: Operation, b: Operation) => OpLess(a, b))
      ensures forall x :: x in ops ==> x in oldOps && x.id in IDsOf(methodOperations, methodName)
    {
      var all := OperationsByIDs(IDsOf(methodOperations, methodName));
      OpLessOrder();
      ops := SortedCopy(all, (a: Operation, b: Operation) => OpLess(a, b));
      SameMembers(ops, all);
    }
  }

  /** `name` appended once for every time `ids` lists `opID`. */
  method AppendPerMatch(methods: seq<string>, name: string, ids: seq<string>, opID: string) returns (r: seq<string>)
    ensures multiset(r) == multiset(methods)[name := multiset(methods)[name] + multiset(ids)[opID]]
  {
    r := methods;
    var j := 0;
    while j < |ids|
      invariant 0 <= j <= |ids|
      invariant multiset(r) == multiset(methods)[name := multiset(methods)[name] + multiset(ids[..j])[opID]]
    {
      PrefixSnoc(ids, j);
      if ids[j] == opID {
        r := r + [name];
      }
      j := j + 1;
    }
    assert ids[..j] == ids;
  }

  /** Each operation of a layer bound to its name, later ones replacing earlier ones. */
  method SeedLayer(m: map<string, Operation2>, ops: seq<Operation2>) returns (r: map<string, Operation2>)
    ensures r == Seed(m, ops)
  {
    r := m;
    var i := 0;
    while i < |ops|
      invariant 0 <= i <= |ops|
      invariant r == Seed(m, ops[..i])
    {
      PrefixSnoc(ops, i);
      r := r[ops[i].name := ops[i]];
      i := i + 1;
    }
    assert ops[..i] == ops;
  }

  /** One round of the override_operations loop: the entry created if need be, then its fields replaced. */
  method ApplyOverride(m: map<string, Operation2>, op: Operation2) returns (r: map<string, Operation2>)
    ensures r == OverrideStep(m, op)
  {
    r := m;
    if op.name !in r {
      r := r[op.name := op];
    }
    if op.documentationURL != "" {
      r := r[op.name := r[op.name].(documentationURL := op.documentationURL)];
    }
    if |op.openAPIFiles| > 0 {
      r := r[op.name := r[op.name].(openAPIFiles := op.openAPIFiles)];
    }
  }

  /** The override_operations loop of resolve. */
  method OverrideLayer(m: map<string, Operation2>, ovs: seq<Operation2>) returns (r: map<string, Operation2>)
    ensures r == ApplyOverrides(m, ovs)
  {
    r := m;
    var i := 0;
    while i < |ovs|
      invariant 0 <= i <= |ovs|
      invariant r == ApplyOverrides(m, ovs[..i])
    {
      PrefixSnoc(ovs, i);
      r := ApplyOverride(r, ovs[i]);
      i := i + 1;
    }
    assert ovs[..i] == ovs;
  }

  /** The values of a map, one per key, visiting the keys in an unspecified order. */
  method CollectValues(all: map<string, Operation2>) returns (collected: seq<Operation2>)
    ensures |collected| == |all|
    ensures forall n :: n in all ==> all[n] in collected
    ensures forall i :: 0 <= i < |collected| ==> collected[i] in all.Values
  {
    var todo := all.Keys;
    collected := [];
    while todo != {}
      invariant todo <= all.Keys
      invariant |collected| + |todo| == |all.Keys|
      invariant forall n :: n in all.Keys - todo ==> all[n] in collected
      invariant forall i :: 0 <= i < |collected| ==> collected[i] in all.Values
      decreases |todo|
    {
      var n :| n in todo;
      collected := collected + [all[n]];
      todo := todo - {n};
    }
  }

  /** sortOperations: the same operations, sorted by URL and then verb. */
  method SortOperations(collected: seq<Operation2>) returns (ops: seq<Operation2>)
    ensures |ops| == |collected|
    ensures forall x :: x in ops <==> x in collected
    ensures SortedBy(ops, (a: Operation2, b: Operation2) => Op2Less(a, b))
  {
    Op2LessOrder();
    ops := SortedCopy(collected, (a: Operation2, b: Operation2) => Op2Less(a, b));
    forall x ensures x in ops <==> x in collected {
      assert x in ops <==> multiset(ops)[x] > 0;
      assert x in collected <==> multiset(collected)[x] > 0;
    }
    assert |ops| == |multiset(ops)| == |multiset(collected)| == |collected|;
  }

  /** The matched operation's update in addOperation. */
  method AddFile(op: Operation, filename: string, docURL: string) returns (r: Operation)
    ensures r == WithFile(op, filename, docURL)
  {
    var files := op.openAPIFiles;
    if |files| == 0 {
      return op.(openAPIFiles := files + [filename], openAPIDoc := docURL);
    }
    if !Contains(filename, "/ghes") {
      return op.(openAPIFiles := files + [filename]);
    }
    var k := 0;
    while k < |files|
      invariant 0 <= k <= |files|
      invariant forall j :: 0 <= j < k ==> !GhesFile(files[j])
    {
      if Contains(files[k], "/ghes") {
        return op;
      }
      k := k + 1;
    }
    return op.(openAPIFiles := files + [filename]);
  }

  /** addOperation on a list of old operations, searching for the first match. */
  method AddOpTo(ops: seq<Operation>, filename: string, descID: string, docURL: string) returns (r: seq<Operation>)
    ensures r == AddOp(ops, filename, descID, docURL)
  {
    var found := FindKeyed(ops, OpKey, NormalizedID(descID));
    match found
    case Some(i) =>
      var updated := AddFile(ops[i], filename, docURL);
      r := ops[i := updated];
    case None =>
      r := ops + [Operation(descID, docURL, "", [filename])];
  }

  /** The search loop of addOperation: the index of the first element whose key is `norm`. */
  method FindKeyed<T>(xs: seq<T>, key: T -> string, norm: string) returns (found: Option<nat>)
    ensures found == FirstKeyed(xs, key, norm)
  {
    var i := 0;
    while i < |xs|
      invariant 0 <= i <= |xs|
      invariant forall j :: 0 <= j < i ==> key(xs[j]) != norm
    {
      if key(xs[i]) == norm {
        FirstKeyedAt(xs, key, norm, i);
        return Some(i);
      }
      i := i + 1;
    }
    return None;
  }

  lemma FirstKeyedAt<T>(xs: seq<T>, key: T -> string, norm: string, i: nat)
    requires i < |xs| && key(xs[i]) == norm
    requires forall j :: 0 <= j < i ==> key(xs[j]) != norm
    ensures FirstKeyed(xs, key, norm) == Some(i)
  {
    var r := FirstKeyed(xs, key, norm);
    assert r.Some?;
  }
}
