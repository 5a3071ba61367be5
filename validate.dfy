/**
  The metadata validator: an ordered list of issue messages, built by four
  validators that each only append and never stop early. Issues are kept as
  a datatype whose rendering gives the exact message text.
*/
module Validate {
  import opened Options
  import opened Text
  import opened Metadata

  /** A method listed in metadata.yaml with the names of its operations. */
  datatype MethodEntry = MethodEntry(name: string, opNames: seq<string>)

  // ---------------------------------------------------------------------
  // Issues

  datatype Issue =
    | MissingFromMetadata(m: string)
    | DuplicatedMethod(m: string)
    | NotInPackage(m: string)
    | NoOperations(m: string)
    | DuplicateOperation(m: string, op: string)
    | NotCanonical(m: string, op: string)
    | NotDefined(m: string, op: string)
    | DuplicatedOpenapi(n: string)
    | DuplicatedManual(n: string)
    | InBothLayers(n: string)
    | DuplicatedOverride(n: string)
    | UnknownOverride(n: string)

  /** The message of an issue. */
  function Message(i: Issue): string {
    match i
    case MissingFromMetadata(m) => "Method " + m + " does not exist in metadata.yaml. Please add it."
    case DuplicatedMethod(m) => "Method " + m + " is duplicated in metadata.yaml."
    case NotInPackage(m) => "Method " + m + " in metadata.yaml does not exist in github package."
    case NoOperations(m) => "Method " + m + " in metadata.yaml does not have any operations."
    case DuplicateOperation(m, op) => "Method " + m + " in metadata.yaml has duplicate operation: " + op + "."
    case NotCanonical(m, op) =>
      "Method " + m + " has operation which is does not use the canonical name. You may be able to automatically fix this by running 'script/metadata.sh canonize': " + op + "."
    case NotDefined(m, op) => "Method " + m + " has operation which is not defined in metadata.yaml: " + op + "."
    case DuplicatedOpenapi(n) => "Name duplicated in openapi_operations: " + n
    case DuplicatedManual(n) => "Name duplicated in operations: " + n
    case InBothLayers(n) => "Name exists in both operations and openapi_operations: " + n
    case DuplicatedOverride(n) => "Name duplicated in override_operations: " + n
    case UnknownOverride(n) => "Name in override_operations does not exist in operations or openapi_operations: " + n
  }

  /** The messages of a list of issues, in order. */
  function Messages(issues: seq<Issue>): (r: seq<string>)
    ensures |r| == |issues|
  {
    if |issues| == 0 then [] else Messages(issues[..|issues| - 1]) + [Message(issues[|issues| - 1])]
  }

  lemma {:induction false} MessagesAt(issues: seq<Issue>, k: nat)
    requires k < |issues|
    ensures Messages(issues)[k] == Message(issues[k])
  {
    if k < |issues| - 1 {
      MessagesAt(issues[..|issues| - 1], k);
    }
  }

  lemma {:induction false} MessagesAppend(a: seq<Issue>, b: seq<Issue>)
    ensures Messages(a + b) == Messages(a) + Messages(b)
    decreases |b|
  {
    if |b| > 0 {
      assert (a + b)[..|a + b| - 1] == a + b[..|b| - 1];
      MessagesAppend(a, b[..|b| - 1]);
    } else {
      assert a + b == a;
    }
  }

  /** Two "does not exist in metadata.yaml" messages are equal only for the same entry. */
  lemma MissingMessageInjective(a: string, b: string)
    requires Message(MissingFromMetadata(a)) == Message(MissingFromMetadata(b))
    ensures a == b
  {
    var x := Message(MissingFromMetadata(a));
    assert |a| == |b|;
    assert a == x[7..7 + |a|];
  }

  /** How many issues satisfy `p`. */
  function Count(s: seq<Issue>, p: Issue -> bool): nat {
    if |s| == 0 then 0 else Count(s[..|s| - 1], p) + (if p(s[|s| - 1]) then 1 else 0)
  }

  predicate IsDuplicateOperation(i: Issue) { i.DuplicateOperation? }
  predicate IsUnresolvedOperation(i: Issue) { i.NotCanonical? || i.NotDefined? }
  predicate IsDuplicatedMethod(i: Issue) { i.DuplicatedMethod? }

  lemma {:induction false} CountAppend(a: seq<Issue>, b: seq<Issue>, p: Issue -> bool)
    ensures Count(a + b, p) == Count(a, p) + Count(b, p)
    decreases |b|
  {
    if |b| > 0 {
      assert (a + b)[..|a + b| - 1] == a + b[..|b| - 1];
      CountAppend(a, b[..|b| - 1], p);
    } else {
      assert a + b == a;
    }
  }

  /** How many entries repeat an earlier one. */
  function Repeats(names: seq<string>): nat {
    if |names| == 0 then 0
    else Repeats(names[..|names| - 1]) + (if names[|names| - 1] in names[..|names| - 1] then 1 else 0)
  }

  function Distinct(names: seq<string>): set<string> {
    set k | 0 <= k < |names| :: names[k]
  }

  /** Every entry is either the first of its name or a repeat. */
  lemma {:induction false} RepeatsCount(names: seq<string>)
    ensures Repeats(names) + |Distinct(names)| == |names|
  {
    if |names| > 0 {
      var prefix := names[..|names| - 1];
      var last := names[|names| - 1];
      RepeatsCount(prefix);
      assert Distinct(names) == Distinct(prefix) + {last} by {
        forall x | x in Distinct(names) ensures x in Distinct(prefix) + {last} {
          var k :| 0 <= k < |names| && names[k] == x;
          if k < |names| - 1 {
            assert prefix[k] == x;
          }
        }
        forall x | x in Distinct(prefix) ensures x in Distinct(names) {
          var k :| 0 <= k < |prefix| && prefix[k] == x;
          assert names[k] == x;
        }
      }
      assert last in prefix <==> last in Distinct(prefix) by {
        if last in prefix {
          var k :| 0 <= k < |prefix| && prefix[k] == last;
        }
      }
      if last in prefix {
        assert Distinct(prefix) + {last} == Distinct(prefix);
      } else {
        assert |Distinct(prefix) + {last}| == |Distinct(prefix)| + 1;
      }
    }
  }

  // ---------------------------------------------------------------------
  // Lookups

  /** getMethod: a metadata method of that name exists. */
  predicate HasMethod(methods: seq<MethodEntry>, n: string) {
    exists i :: 0 <= i < |methods| && methods[i].name == n
  }

  function MethodNames(methods: seq<MethodEntry>): (r: seq<string>)
    ensures |r| == |methods| && forall i :: 0 <= i < |methods| ==> r[i] == methods[i].name
  {
    seq(|methods|, i requires 0 <= i < |methods| => methods[i].name)
  }

  function OpNames(ops: seq<Operation2>): (r: seq<string>)
    ensures |r| == |ops| && forall i :: 0 <= i < |ops| ==> r[i] == ops[i].name
  {
    seq(|ops|, i requires 0 <= i < |ops| => ops[i].name)
  }

  /** getOperationsWithNormalizedName: the resolved operation names with the same normalised ID. */
  function NormalizedMatches(resolved: map<string, Operation2>, opName: string): (r: set<string>)
  {
    set n | n in resolved && NormalizedID(n) == NormalizedID(opName)
  }

  predicate HasNormalizedMatch(resolved: map<string, Operation2>, opName: string) {
    NormalizedMatches(resolved, opName) != {}
  }

  // ---------------------------------------------------------------------
  // validateServiceMethodsExist

  /** One issue per inventory method without a metadata entry, in inventory order. */
  function ServiceExistIssues(serviceMethods: seq<string>, methods: seq<MethodEntry>): seq<Issue> {
    if |serviceMethods| == 0 then []
    else
      var m := serviceMethods[|serviceMethods| - 1];
      ServiceExistIssues(serviceMethods[..|serviceMethods| - 1], methods)
        + (if HasMethod(methods, m) then [] else [MissingFromMetadata(m)])
  }

  /** The "does not exist in metadata.yaml" issues name exactly the inventory methods without metadata, and are all there is. */
  lemma {:induction false} ServiceExistIssuesExact(serviceMethods: seq<string>, methods: seq<MethodEntry>, m: string)
    ensures MissingFromMetadata(m) in ServiceExistIssues(serviceMethods, methods) <==> m in serviceMethods && !HasMethod(methods, m)
    ensures forall k :: 0 <= k < |ServiceExistIssues(serviceMethods, methods)| ==>
      ServiceExistIssues(serviceMethods, methods)[k].MissingFromMetadata?
  {
    if |serviceMethods| > 0 {
      var prefix := serviceMethods[..|serviceMethods| - 1];
      var last := serviceMethods[|serviceMethods| - 1];
      ServiceExistIssuesExact(prefix, methods, m);
      assert serviceMethods == prefix + [last];
    }
  }

  /** validateServiceMethodsExist. */
  method ValidateServiceMethodsExist(result: seq<Issue>, methods: seq<MethodEntry>, serviceMethods: seq<string>)
    returns (r: seq<Issue>)
    ensures r == result + ServiceExistIssues(serviceMethods, methods)
  {
    r := result;
    var i := 0;
    while i < |serviceMethods|
      invariant 0 <= i <= |serviceMethods|
      invariant r == result + ServiceExistIssues(serviceMethods[..i], methods)
    {
      assert serviceMethods[..i + 1][..i] == serviceMethods[..i];
      var m := serviceMethods[i];
      if !HasMethod(methods, m) {
        r := r + [MissingFromMetadata(m)];
      }
      i := i + 1;
    }
    assert serviceMethods[..i] == serviceMethods;
  }

  // ---------------------------------------------------------------------
  // validateMetaMethodOperations

  /** The issue for one operation name: none for an exact match, else non-canonical or undefined. */
  function OpNameIssue(m: string, opName: string, resolved: map<string, Operation2>): seq<Issue> {
    if opName in resolved then []
    else if HasNormalizedMatch(resolved, opName) then [NotCanonical(m, opName)]
    else [NotDefined(m, opName)]
  }

  function OpNameIssues(m: string, opNames: seq<string>, resolved: map<string, Operation2>): seq<Issue> {
    if |opNames| == 0 then []
    else
      var prefix := opNames[..|opNames| - 1];
      var op := opNames[|opNames| - 1];
      OpNameIssues(m, prefix, resolved)
        + (if op in prefix then [DuplicateOperation(m, op)] else [])
        + OpNameIssue(m, op, resolved)
  }

  /** The issues of one metadata method's operations. */
  function MethodOpIssues(entry: MethodEntry, resolved: map<string, Operation2>): seq<Issue> {
    (if |entry.opNames| == 0 then [NoOperations(entry.name)] else [])
    + OpNameIssues(entry.name, entry.opNames, resolved)
  }

  /** validateMetaMethodOperations. */
  method ValidateMetaMethodOperations(result: seq<Issue>, resolved: map<string, Operation2>, entry: MethodEntry)
    returns (r: seq<Issue>)
    ensures r == result + MethodOpIssues(entry, resolved)
  {
    var start: seq<Issue> := [];
    if |entry.opNames| == 0 {
      start := [NoOperations(entry.name)];
    }
    var issues := CheckOperationNames(entry.name, entry.opNames, resolved);
    r := result + (start + issues);
  }

  /** The loop over one method's operation names. */
  method CheckOperationNames(m: string, opNames: seq<string>, resolved: map<string, Operation2>)
    returns (issues: seq<Issue>)
    ensures issues == OpNameIssues(m, opNames, resolved)
  {
    issues := [];
    var seenOps: set<string> := {};
    var i := 0;
    while i < |opNames|
      invariant 0 <= i <= |opNames|
      invariant forall x :: x in seenOps <==> x in opNames[..i]
      invariant issues == OpNameIssues(m, opNames[..i], resolved)
    {
      var prefix := opNames[..i];
      var opName := opNames[i];
      assert opNames[..i + 1] == prefix + [opName];
      var dup: seq<Issue> := [];
      if opName in seenOps {
        dup := [DuplicateOperation(m, opName)];
      }
      seenOps := seenOps + {opName};
      var found := CheckOperationName(m, opName, resolved);
      OpNameIssuesStep(m, prefix, opName, resolved);
      issues := issues + dup + found;
      i := i + 1;
    }
    assert opNames[..i] == opNames;
  }

  lemma OpNameIssuesStep(m: string, opNames: seq<string>, op: string, resolved: map<string, Operation2>)
    ensures OpNameIssues(m, opNames + [op], resolved)
         == OpNameIssues(m, opNames, resolved) + (if op in opNames then [DuplicateOperation(m, op)] else []) + OpNameIssue(m, op, resolved)
  {
    assert (opNames + [op])[..|opNames|] == opNames;
  }

  /** The check of one operation name against the resolved operations. */
  method CheckOperationName(m: string, opName: string, resolved: map<string, Operation2>) returns (r: seq<Issue>)
    ensures r == OpNameIssue(m, opName, resolved)
  {
    if opName in resolved {
      r := [];
    } else if HasNormalizedMatch(resolved, opName) {
      r := [NotCanonical(m, opName)];
    } else {
      r := [NotDefined(m, opName)];
    }
  }

  /** How many of the operation names have no exact resolved operation. */
  function Unresolved(opNames: seq<string>, resolved: map<string, Operation2>): nat {
    if |opNames| == 0 then 0
    else Unresolved(opNames[..|opNames| - 1], resolved) + (if opNames[|opNames| - 1] in resolved then 0 else 1)
  }

  /** Each repeat of an operation name gives exactly one duplicate-operation issue. */
  lemma {:induction false} DuplicateOperationsCount(m: string, opNames: seq<string>, resolved: map<string, Operation2>)
    ensures Count(OpNameIssues(m, opNames, resolved), IsDuplicateOperation) == Repeats(opNames)
  {
    if |opNames| > 0 {
      var prefix := opNames[..|opNames| - 1];
      var op := opNames[|opNames| - 1];
      DuplicateOperationsCount(m, prefix, resolved);
      var a := OpNameIssues(m, prefix, resolved);
      var b := if op in prefix then [DuplicateOperation(m, op)] else [];
      var c := OpNameIssue(m, op, resolved);
      OpNameIssueCounts(m, op, resolved);
      CountAppend(a + b, c, IsDuplicateOperation);
      CountAppend(a, b, IsDuplicateOperation);
      CountSmall(b, IsDuplicateOperation);
    }
  }

  /** Each operation name without an exact resolved operation gives exactly one non-canonical or undefined issue. */
  lemma {:induction false} UnresolvedOperationsCount(m: string, opNames: seq<string>, resolved: map<string, Operation2>)
    ensures Count(OpNameIssues(m, opNames, resolved), IsUnresolvedOperation) == Unresolved(opNames, resolved)
  {
    if |opNames| > 0 {
      var prefix := opNames[..|opNames| - 1];
      var op := opNames[|opNames| - 1];
      UnresolvedOperationsCount(m, prefix, resolved);
      var a := OpNameIssues(m, prefix, resolved);
      var b := if op in prefix then [DuplicateOperation(m, op)] else [];
      var c := OpNameIssue(m, op, resolved);
      OpNameIssueCounts(m, op, resolved);
      CountAppend(a + b, c, IsUnresolvedOperation);
      CountAppend(a, b, IsUnresolvedOperation);
      CountSmall(b, IsUnresolvedOperation);
    }
  }

  /** The issue of one name is never a duplicate, and is an unresolved one exactly when the name is not resolved. */
  lemma OpNameIssueCounts(m: string, op: string, resolved: map<string, Operation2>)
    ensures Count(OpNameIssue(m, op, resolved), IsDuplicateOperation) == 0
    ensures Count(OpNameIssue(m, op, resolved), IsUnresolvedOperation) == if op in resolved then 0 else 1
  {
    CountSmall(OpNameIssue(m, op, resolved), IsDuplicateOperation);
    CountSmall(OpNameIssue(m, op, resolved), IsUnresolvedOperation);
  }

  lemma CountSmall(s: seq<Issue>, p: Issue -> bool)
    requires |s| <= 1
    ensures Count(s, p) == if |s| == 1 && p(s[0]) then 1 else 0
  {
    if |s| == 1 {
      assert s[..0] == [];
    }
  }

  /** A method without operations gets exactly one issue. */
  lemma NoOperationsOneIssue(entry: MethodEntry, resolved: map<string, Operation2>)
    requires |entry.opNames| == 0
    ensures MethodOpIssues(entry, resolved) == [NoOperations(entry.name)]
  {
  }

  /** The issue of an operation name: none when it resolves exactly, else non-canonical iff a normalised match exists. */
  lemma OpNameIssueCases(m: string, opName: string, resolved: map<string, Operation2>)
    ensures OpNameIssue(m, opName, resolved) == [] <==> opName in resolved
    ensures OpNameIssue(m, opName, resolved) == [NotCanonical(m, opName)] <==> opName !in resolved && HasNormalizedMatch(resolved, opName)
    ensures OpNameIssue(m, opName, resolved) == [NotDefined(m, opName)] <==> opName !in resolved && !HasNormalizedMatch(resolved, opName)
  {
  }

  // ---------------------------------------------------------------------
  // validateMetadataMethods

  /** The issues of each metadata method in turn; a repeated name is reported and not checked again. */
  function MetadataMethodIssues(methods: seq<MethodEntry>, serviceMethods: seq<string>,
                                resolved: map<string, Operation2>): seq<Issue>
  {
    if |methods| == 0 then []
    else
      var prefix := methods[..|methods| - 1];
      var entry := methods[|methods| - 1];
      MetadataMethodIssues(prefix, serviceMethods, resolved) + MethodIssues(entry, MethodNames(prefix), serviceMethods, resolved)
  }

  /** The issues of one metadata entry, given the names seen before it. */
  function MethodIssues(entry: MethodEntry, seen: seq<string>, serviceMethods: seq<string>,
                        resolved: map<string, Operation2>): seq<Issue>
  {
    if entry.name in seen then [DuplicatedMethod(entry.name)]
    else (if entry.name in serviceMethods then [] else [NotInPackage(entry.name)]) + MethodOpIssues(entry, resolved)
  }

  /** The names of a list as a set, for constant-time lookups. */
  method NameSet(names: seq<string>) returns (r: set<string>)
    ensures forall x :: x in r <==> x in names
  {
    r := {};
    var j := 0;
    while j < |names|
      invariant 0 <= j <= |names|
      invariant forall x :: x in r <==> x in names[..j]
    {
      assert names[..j + 1] == names[..j] + [names[j]];
      r := r + {names[j]};
      j := j + 1;
    }
    assert names[..j] == names;
  }

  /** The checks of one metadata method, appended to `result`. */
  method CheckMethod(result: seq<Issue>, entry: MethodEntry, ghost seen: seq<string>, seenSet: set<string>,
                     serviceMethods: seq<string>, smLookup: set<string>, resolved: map<string, Operation2>)
    returns (r: seq<Issue>)
    requires forall x :: x in seenSet <==> x in seen
    requires forall x :: x in smLookup <==> x in serviceMethods
    ensures r == result + MethodIssues(entry, seen, serviceMethods, resolved)
  {
    if entry.name in seenSet {
      r := result + [DuplicatedMethod(entry.name)];
    } else {
      var missing: seq<Issue> := [];
      if entry.name !in smLookup {
        missing := [NotInPackage(entry.name)];
      }
      r := ValidateMetaMethodOperations(result + missing, resolved, entry);
    }
  }

  lemma AppendAssoc(a: seq<Issue>, b: seq<Issue>, c: seq<Issue>)
    ensures a + b + c == a + (b + c)
  {
  }

  /** One turn of validateMetadataMethods' loop. */
  method MetadataMethodStep(result: seq<Issue>, r0: seq<Issue>, ghost done: seq<MethodEntry>, entry: MethodEntry,
                            seen0: set<string>, serviceMethods: seq<string>, smLookup: set<string>,
                            resolved: map<string, Operation2>)
    returns (r: seq<Issue>, seen: set<string>)
    requires forall x :: x in seen0 <==> x in MethodNames(done)
    requires forall x :: x in smLookup <==> x in serviceMethods
    requires r0 == result + MetadataMethodIssues(done, serviceMethods, resolved)
    ensures forall x :: x in seen <==> x in MethodNames(done + [entry])
    ensures r == result + MetadataMethodIssues(done + [entry], serviceMethods, resolved)
  {
    MetadataMethodIssuesStep(done, entry, serviceMethods, resolved);
    ghost var before := MetadataMethodIssues(done, serviceMethods, resolved);
    ghost var step := MethodIssues(entry, MethodNames(done), serviceMethods, resolved);
    r := CheckMethod(r0, entry, MethodNames(done), seen0, serviceMethods, smLookup, resolved);
    AppendAssoc(result, before, step);
    seen := seen0 + {entry.name};
  }

  /** validateMetadataMethods. */
  method ValidateMetadataMethods(result: seq<Issue>, methods: seq<MethodEntry>, serviceMethods: seq<string>,
                                 resolved: map<string, Operation2>)
    returns (r: seq<Issue>)
    ensures r == result + MetadataMethodIssues(methods, serviceMethods, resolved)
  {
    var smLookup := NameSet(serviceMethods);
    r := result;
    var seenMethods: set<string> := {};
    var i := 0;
    while i < |methods|
      invariant 0 <= i <= |methods|
      invariant forall x :: x in seenMethods <==> x in MethodNames(methods[..i])
      invariant r == result + MetadataMethodIssues(methods[..i], serviceMethods, resolved)
    {
      PrefixSnoc(methods, i);
      r, seenMethods := MetadataMethodStep(result, r, methods[..i], methods[i], seenMethods, serviceMethods, smLookup, resolved);
      i := i + 1;
    }
    assert methods[..i] == methods;
  }

  lemma MetadataMethodIssuesStep(methods: seq<MethodEntry>, entry: MethodEntry, serviceMethods: seq<string>,
                                 resolved: map<string, Operation2>)
    ensures MethodNames(methods + [entry]) == MethodNames(methods) + [entry.name]
    ensures MetadataMethodIssues(methods + [entry], serviceMethods, resolved)
         == MetadataMethodIssues(methods, serviceMethods, resolved) + MethodIssues(entry, MethodNames(methods), serviceMethods, resolved)
  {
    assert (methods + [entry])[..|methods|] == methods;
  }

  /** One "duplicated" issue per repeated metadata method name. */
  lemma {:induction false} DuplicatedMethodsCount(methods: seq<MethodEntry>, serviceMethods: seq<string>,
                                                  resolved: map<string, Operation2>)
    ensures Count(MetadataMethodIssues(methods, serviceMethods, resolved), IsDuplicatedMethod)
         == Repeats(MethodNames(methods))
  {
    if |methods| > 0 {
      var prefix := methods[..|methods| - 1];
      var entry := methods[|methods| - 1];
      DuplicatedMethodsCount(prefix, serviceMethods, resolved);
      assert MethodNames(methods)[..|methods| - 1] == MethodNames(prefix);
      var before := MetadataMethodIssues(prefix, serviceMethods, resolved);
      var rest := MethodIssues(entry, MethodNames(prefix), serviceMethods, resolved);
      CountAppend(before, rest, IsDuplicatedMethod);
      if entry.name in MethodNames(prefix) {
        assert rest[..0] == [];
      } else {
        FirstCheckNotDuplicated(entry, serviceMethods, resolved);
      }
    }
  }

  /** "Methods in metadata.yaml must exist in github package": a not-in-package issue names exactly the metadata methods missing from the inventory. */
  lemma {:induction false} NotInPackageExact(methods: seq<MethodEntry>, serviceMethods: seq<string>,
                                             resolved: map<string, Operation2>, m: string)
    ensures NotInPackage(m) in MetadataMethodIssues(methods, serviceMethods, resolved)
        <==> m in MethodNames(methods) && m !in serviceMethods
  {
    if |methods| > 0 {
      var prefix := methods[..|methods| - 1];
      var entry := methods[|methods| - 1];
      assert methods == prefix + [entry];
      MetadataMethodIssuesStep(prefix, entry, serviceMethods, resolved);
      NotInPackageExact(prefix, serviceMethods, resolved, m);
      NotInPackageOfEntry(entry, MethodNames(prefix), serviceMethods, resolved, m);
    }
  }

  /** The not-in-package issue of one entry. */
  lemma NotInPackageOfEntry(entry: MethodEntry, seen: seq<string>, serviceMethods: seq<string>,
                            resolved: map<string, Operation2>, m: string)
    ensures NotInPackage(m) in MethodIssues(entry, seen, serviceMethods, resolved)
        <==> entry.name == m && m !in seen && m !in serviceMethods
  {
    OpNameIssuesKinds(entry.name, entry.opNames, resolved);
    var ops := OpNameIssues(entry.name, entry.opNames, resolved);
    assert forall k :: 0 <= k < |ops| ==> ops[k] != NotInPackage(m);
  }

  /**
    "At least one operation": a no-operations issue is reported for `m` iff the
    first metadata entry named `m` lists no operation.
  */
  lemma {:induction false} NoOperationsExact(methods: seq<MethodEntry>, serviceMethods: seq<string>,
                                             resolved: map<string, Operation2>, m: string)
    ensures NoOperations(m) in MetadataMethodIssues(methods, serviceMethods, resolved)
        <==> exists i :: 0 <= i < |methods| && FirstOfName(methods, i, m) && |methods[i].opNames| == 0
  {
    if |methods| > 0 {
      var prefix := methods[..|methods| - 1];
      var entry := methods[|methods| - 1];
      assert methods == prefix + [entry];
      MetadataMethodIssuesStep(prefix, entry, serviceMethods, resolved);
      NoOperationsExact(prefix, serviceMethods, resolved, m);
      NoOperationsOfEntry(entry, MethodNames(prefix), serviceMethods, resolved, m);
      forall i | 0 <= i < |prefix|
        ensures FirstOfName(methods, i, m) <==> FirstOfName(prefix, i, m)
      {
        assert methods[..i] == prefix[..i];
      }
      assert methods[..|prefix|] == prefix;
      var last := |prefix|;
      if NoOperations(m) in MetadataMethodIssues(methods, serviceMethods, resolved) {
        if NoOperations(m) in MetadataMethodIssues(prefix, serviceMethods, resolved) {
          var i :| 0 <= i < |prefix| && FirstOfName(prefix, i, m) && |prefix[i].opNames| == 0;
          assert FirstOfName(methods, i, m) && |methods[i].opNames| == 0;
        } else {
          assert FirstOfName(methods, last, m) && |methods[last].opNames| == 0;
        }
      }
      if exists i :: 0 <= i < |methods| && FirstOfName(methods, i, m) && |methods[i].opNames| == 0 {
        var i :| 0 <= i < |methods| && FirstOfName(methods, i, m) && |methods[i].opNames| == 0;
        if i < last {
          assert FirstOfName(prefix, i, m) && |prefix[i].opNames| == 0;
        }
      }
    }
  }

  /** Entry `i` is the first one named `m`. */
  predicate FirstOfName(methods: seq<MethodEntry>, i: nat, m: string)
    requires i < |methods|
  {
    methods[i].name == m && m !in MethodNames(methods[..i])
  }

  /** The no-operations issue of one entry. */
  lemma NoOperationsOfEntry(entry: MethodEntry, seen: seq<string>, serviceMethods: seq<string>,
                            resolved: map<string, Operation2>, m: string)
    ensures NoOperations(m) in MethodIssues(entry, seen, serviceMethods, resolved)
        <==> entry.name == m && m !in seen && |entry.opNames| == 0
  {
    OpNameIssuesKinds(entry.name, entry.opNames, resolved);
    var ops := OpNameIssues(entry.name, entry.opNames, resolved);
    assert forall k :: 0 <= k < |ops| ==> ops[k] != NoOperations(m);
  }

  /** A method checked the first time produces no "duplicated" issue. */
  lemma FirstCheckNotDuplicated(entry: MethodEntry, serviceMethods: seq<string>, resolved: map<string, Operation2>)
    ensures Count((if entry.name in serviceMethods then [] else [NotInPackage(entry.name)]) + MethodOpIssues(entry, resolved),
                  IsDuplicatedMethod) == 0
  {
    var rest := (if entry.name in serviceMethods then [] else [NotInPackage(entry.name)]) + MethodOpIssues(entry, resolved);
    OpNameIssuesKinds(entry.name, entry.opNames, resolved);
    assert forall k :: 0 <= k < |rest| ==> !rest[k].DuplicatedMethod?;
    CountNone(rest, IsDuplicatedMethod);
  }

  /** The operation-name issues are only duplicate, non-canonical and undefined operations. */
  lemma {:induction false} OpNameIssuesKinds(m: string, opNames: seq<string>, resolved: map<string, Operation2>)
    ensures forall k :: 0 <= k < |OpNameIssues(m, opNames, resolved)| ==>
      OpNameIssues(m, opNames, resolved)[k].DuplicateOperation? || OpNameIssues(m, opNames, resolved)[k].NotCanonical?
      || OpNameIssues(m, opNames, resolved)[k].NotDefined?
  {
    if |opNames| > 0 {
      OpNameIssuesKinds(m, opNames[..|opNames| - 1], resolved);
    }
  }

  lemma {:induction false} CountNone(s: seq<Issue>, p: Issue -> bool)
    requires forall k :: 0 <= k < |s| ==> !p(s[k])
    ensures Count(s, p) == 0
  {
    if |s| > 0 {
      CountNone(s[..|s| - 1], p);
    }
  }


  // ---------------------------------------------------------------------
  // validateOperations

  /** One issue per repeat of a name in openapi_operations. */
  function OpenapiIssues(names: seq<string>): seq<Issue> {
    if |names| == 0 then []
    else
      var prefix := names[..|names| - 1];
      var n := names[|names| - 1];
      OpenapiIssues(prefix) + (if n in prefix then [DuplicatedOpenapi(n)] else [])
  }

  /** Per manual operation: a repeat within operations, then presence in openapi_operations. */
  function ManualIssues(names: seq<string>, openapi: seq<string>): seq<Issue> {
    if |names| == 0 then []
    else
      var prefix := names[..|names| - 1];
      var n := names[|names| - 1];
      ManualIssues(prefix, openapi) + (if n in prefix then [DuplicatedManual(n)] else [])
        + (if n in openapi then [InBothLayers(n)] else [])
  }

  /** Per override: a repeat within override_operations, then absence from both other layers. */
  function OverrideIssues(names: seq<string>, manual: seq<string>, openapi: seq<string>): seq<Issue> {
    if |names| == 0 then []
    else
      var prefix := names[..|names| - 1];
      var n := names[|names| - 1];
      OverrideIssues(prefix, manual, openapi) + (if n in prefix then [DuplicatedOverride(n)] else [])
        + (if n !in manual && n !in openapi then [UnknownOverride(n)] else [])
  }

  function OperationsIssues(openapiOps: seq<Operation2>, manualOps: seq<Operation2>, overrideOps: seq<Operation2>): seq<Issue> {
    OpenapiIssues(OpNames(openapiOps))
      + ManualIssues(OpNames(manualOps), OpNames(openapiOps))
      + OverrideIssues(OpNames(overrideOps), OpNames(manualOps), OpNames(openapiOps))
  }

  /** The openapi_operations loop; `seen` ends as the set of openapi names. */
  method CheckOpenapiOps(result: seq<Issue>, ops: seq<Operation2>) returns (r: seq<Issue>, seen: set<string>)
    ensures r == result + OpenapiIssues(OpNames(ops))
    ensures SameNames(seen, OpNames(ops))
  {
    r := result;
    seen := {};
    var i := 0;
    while i < |ops|
      invariant 0 <= i <= |ops|
      invariant SameNames(seen, OpNames(ops[..i]))
      invariant r == result + OpenapiIssues(OpNames(ops[..i]))
    {
      var n := ops[i].name;
      OpNamesStep(ops, i);
      OpenapiIssuesStep(OpNames(ops[..i]), n);
      SeenStep(seen, OpNames(ops[..i]), n);
      if n in seen {
        r := r + [DuplicatedOpenapi(n)];
      }
      seen := seen + {n};
      i := i + 1;
    }
    assert ops[..i] == ops;
  }

  /** The operations loop; `seen` ends as the set of manual names. */
  method CheckManualOps(result: seq<Issue>, ops: seq<Operation2>, ghost openapi: seq<string>, openapiNames: set<string>)
    returns (r: seq<Issue>, seen: set<string>)
    requires SameNames(openapiNames, openapi)
    ensures r == result + ManualIssues(OpNames(ops), openapi)
    ensures SameNames(seen, OpNames(ops))
  {
    r := result;
    seen := {};
    var i := 0;
    while i < |ops|
      invariant 0 <= i <= |ops|
      invariant SameNames(seen, OpNames(ops[..i]))
      invariant r == result + ManualIssues(OpNames(ops[..i]), openapi)
    {
      var n := ops[i].name;
      OpNamesStep(ops, i);
      ManualIssuesStep(OpNames(ops[..i]), n, openapi);
      SeenStep(seen, OpNames(ops[..i]), n);
      var dup: seq<Issue> := [];
      if n in seen {
        dup := [DuplicatedManual(n)];
      }
      seen := seen + {n};
      var both: seq<Issue> := [];
      if n in openapiNames {
        both := [InBothLayers(n)];
      }
      AppendAssoc3(result, ManualIssues(OpNames(ops[..i]), openapi), dup, both);
      r := r + dup + both;
      i := i + 1;
    }
    assert ops[..i] == ops;
  }

  /** A set holding exactly the names of a list. */
  ghost predicate SameNames(seen: set<string>, names: seq<string>) {
    forall x :: x in seen <==> x in names
  }

  lemma SeenStep(seen: set<string>, names: seq<string>, n: string)
    requires SameNames(seen, names)
    ensures n in seen <==> n in names
    ensures SameNames(seen + {n}, names + [n])
  {
  }

  lemma OpNamesStep(ops: seq<Operation2>, i: nat)
    requires i < |ops|
    ensures OpNames(ops[..i + 1]) == OpNames(ops[..i]) + [ops[i].name]
  {
  }

  lemma ManualIssuesStep(names: seq<string>, n: string, openapi: seq<string>)
    ensures ManualIssues(names + [n], openapi)
         == ManualIssues(names, openapi) + (if n in names then [DuplicatedManual(n)] else [])
            + (if n in openapi then [InBothLayers(n)] else [])
  {
    assert (names + [n])[..|names|] == names;
  }

  lemma OpenapiIssuesStep(names: seq<string>, n: string)
    ensures OpenapiIssues(names + [n]) == OpenapiIssues(names) + (if n in names then [DuplicatedOpenapi(n)] else [])
  {
    assert (names + [n])[..|names|] == names;
  }

  lemma OverrideIssuesStep(names: seq<string>, n: string, manual: seq<string>, openapi: seq<string>)
    ensures OverrideIssues(names + [n], manual, openapi)
         == OverrideIssues(names, manual, openapi) + (if n in names then [DuplicatedOverride(n)] else [])
            + (if n !in manual && n !in openapi then [UnknownOverride(n)] else [])
  {
    assert (names + [n])[..|names|] == names;
  }

  lemma AppendAssoc3(a: seq<Issue>, b: seq<Issue>, c: seq<Issue>, d: seq<Issue>)
    ensures a + b + c + d == a + (b + c + d)
  {
  }

  /** The override_operations loop. */
  method CheckOverrideOps(result: seq<Issue>, ops: seq<Operation2>, ghost manual: seq<string>, names: set<string>,
                          ghost openapi: seq<string>, openapiNames: set<string>)
    returns (r: seq<Issue>)
    requires SameNames(names, manual)
    requires SameNames(openapiNames, openapi)
    ensures r == result + OverrideIssues(OpNames(ops), manual, openapi)
  {
    r := result;
    var overrideNames: set<string> := {};
    var i := 0;
    while i < |ops|
      invariant 0 <= i <= |ops|
      invariant SameNames(overrideNames, OpNames(ops[..i]))
      invariant r == result + OverrideIssues(OpNames(ops[..i]), manual, openapi)
    {
      var n := ops[i].name;
      OpNamesStep(ops, i);
      OverrideIssuesStep(OpNames(ops[..i]), n, manual, openapi);
      SeenStep(overrideNames, OpNames(ops[..i]), n);
      var dup: seq<Issue> := [];
      if n in overrideNames {
        dup := [DuplicatedOverride(n)];
      }
      overrideNames := overrideNames + {n};
      var unknown: seq<Issue> := [];
      if n !in names && n !in openapiNames {
        unknown := [UnknownOverride(n)];
      }
      AppendAssoc3(result, OverrideIssues(OpNames(ops[..i]), manual, openapi), dup, unknown);
      r := r + dup + unknown;
      i := i + 1;
    }
    assert ops[..i] == ops;
  }

  /** validateOperations. */
  method ValidateOperations(result: seq<Issue>, openapiOps: seq<Operation2>, manualOps: seq<Operation2>,
                            overrideOps: seq<Operation2>)
    returns (r: seq<Issue>)
    ensures r == result + OperationsIssues(openapiOps, manualOps, overrideOps)
  {
    var openapiNames, names;
    r, openapiNames := CheckOpenapiOps(result, openapiOps);
    r, names := CheckManualOps(r, manualOps, OpNames(openapiOps), openapiNames);
    r := CheckOverrideOps(r, overrideOps, OpNames(manualOps), names, OpNames(openapiOps), openapiNames);
  }

  predicate IsDuplicatedManual(i: Issue) { i.DuplicatedManual? }
  predicate IsDuplicatedOverride(i: Issue) { i.DuplicatedOverride? }

  /** The openapi_operations issues are exactly one duplicate issue per repeated name. */
  lemma {:induction false} OpenapiIssuesCount(names: seq<string>)
    ensures |OpenapiIssues(names)| == Repeats(names)
    ensures forall k :: 0 <= k < |OpenapiIssues(names)| ==> OpenapiIssues(names)[k].DuplicatedOpenapi?
    ensures forall n :: DuplicatedOpenapi(n) in OpenapiIssues(names) <==> exists i, j :: 0 <= i < j < |names| && names[i] == n && names[j] == n
  {
    if |names| > 0 {
      var prefix := names[..|names| - 1];
      var last := names[|names| - 1];
      OpenapiIssuesCount(prefix);
      forall n ensures DuplicatedOpenapi(n) in OpenapiIssues(names) <==> exists i, j :: 0 <= i < j < |names| && names[i] == n && names[j] == n {
        if DuplicatedOpenapi(n) in OpenapiIssues(names) {
          if DuplicatedOpenapi(n) in OpenapiIssues(prefix) {
            var i, j :| 0 <= i < j < |prefix| && prefix[i] == n && prefix[j] == n;
            assert names[i] == n && names[j] == n;
          } else {
            assert n == last && last in prefix;
            var i :| 0 <= i < |prefix| && prefix[i] == n;
            assert names[i] == n && names[|names| - 1] == n;
          }
        }
        if exists i, j :: 0 <= i < j < |names| && names[i] == n && names[j] == n {
          var i, j :| 0 <= i < j < |names| && names[i] == n && names[j] == n;
          if j < |names| - 1 {
            assert prefix[i] == n && prefix[j] == n;
          } else {
            assert prefix[i] == n;
          }
        }
      }
    }
  }

  /** Each repeated manual name gives one duplicate issue; "in both" names exactly the manual names also in openapi_operations. */
  lemma ManualIssuesCount(names: seq<string>, openapi: seq<string>)
    ensures Count(ManualIssues(names, openapi), IsDuplicatedManual) == Repeats(names)
    ensures forall n :: InBothLayers(n) in ManualIssues(names, openapi) <==> n in names && n in openapi
  {
    ManualDuplicates(names, openapi);
    forall n ensures InBothLayers(n) in ManualIssues(names, openapi) <==> n in names && n in openapi {
      ManualInBoth(names, openapi, n);
    }
  }

  lemma {:induction false} ManualDuplicates(names: seq<string>, openapi: seq<string>)
    ensures Count(ManualIssues(names, openapi), IsDuplicatedManual) == Repeats(names)
  {
    if |names| > 0 {
      var prefix := names[..|names| - 1];
      var n := names[|names| - 1];
      ManualDuplicates(prefix, openapi);
      var a := ManualIssues(prefix, openapi);
      var b := if n in prefix then [DuplicatedManual(n)] else [];
      var c := if n in openapi then [InBothLayers(n)] else [];
      CountAppend(a + b, c, IsDuplicatedManual);
      CountAppend(a, b, IsDuplicatedManual);
      CountSmall(b, IsDuplicatedManual);
      CountSmall(c, IsDuplicatedManual);
    }
  }

  lemma {:induction false} ManualInBoth(names: seq<string>, openapi: seq<string>, x: string)
    ensures InBothLayers(x) in ManualIssues(names, openapi) <==> x in names && x in openapi
  {
    if |names| > 0 {
      var prefix := names[..|names| - 1];
      ManualInBoth(prefix, openapi, x);
      LastSplit(names);
    }
  }

  /** Each repeated override name gives one duplicate issue; "does not exist" names exactly the overrides in neither layer. */
  lemma OverrideIssuesCount(names: seq<string>, manual: seq<string>, openapi: seq<string>)
    ensures Count(OverrideIssues(names, manual, openapi), IsDuplicatedOverride) == Repeats(names)
    ensures forall n :: UnknownOverride(n) in OverrideIssues(names, manual, openapi) <==> n in names && n !in manual && n !in openapi
  {
    OverrideDuplicates(names, manual, openapi);
    forall n ensures UnknownOverride(n) in OverrideIssues(names, manual, openapi) <==> n in names && n !in manual && n !in openapi {
      OverrideUnknown(names, manual, openapi, n);
    }
  }

  lemma {:induction false} OverrideDuplicates(names: seq<string>, manual: seq<string>, openapi: seq<string>)
    ensures Count(OverrideIssues(names, manual, openapi), IsDuplicatedOverride) == Repeats(names)
  {
    if |names| > 0 {
      var prefix := names[..|names| - 1];
      var n := names[|names| - 1];
      OverrideDuplicates(prefix, manual, openapi);
      var a := OverrideIssues(prefix, manual, openapi);
      var b := if n in prefix then [DuplicatedOverride(n)] else [];
      var c := if n !in manual && n !in openapi then [UnknownOverride(n)] else [];
      CountAppend(a + b, c, IsDuplicatedOverride);
      CountAppend(a, b, IsDuplicatedOverride);
      CountSmall(b, IsDuplicatedOverride);
      CountSmall(c, IsDuplicatedOverride);
    }
  }

  lemma {:induction false} OverrideUnknown(names: seq<string>, manual: seq<string>, openapi: seq<string>, x: string)
    ensures UnknownOverride(x) in OverrideIssues(names, manual, openapi) <==> x in names && x !in manual && x !in openapi
  {
    if |names| > 0 {
      var prefix := names[..|names| - 1];
      OverrideUnknown(prefix, manual, openapi, x);
      LastSplit(names);
    }
  }

  /** A name is in a non-empty list iff it is in all but the last, or is the last. */
  lemma LastSplit(names: seq<string>)
    requires |names| > 0
    ensures forall x :: x in names <==> x in names[..|names| - 1] || x == names[|names| - 1]
  {
    assert names == names[..|names| - 1] + [names[|names| - 1]];
  }

  // ---------------------------------------------------------------------
  // ValidateMetadata

  /** The parts of a metadata file the validator reads. */
  datatype MetadataView = MetadataView(methods: seq<MethodEntry>, openapiOps: seq<Operation2>,
                                       manualOps: seq<Operation2>, overrideOps: seq<Operation2>)

  /** The resolved operations the method checks look names up in. */
  function Resolved(meta: MetadataView): map<string, Operation2> {
    ResolveOps(meta.openapiOps, meta.manualOps, meta.overrideOps)
  }

  /** All issues, in the order the three validators run. */
  function MetadataIssues(meta: MetadataView, serviceMethods: seq<string>): seq<Issue> {
    var resolved := ResolveOps(meta.openapiOps, meta.manualOps, meta.overrideOps);
    ServiceExistIssues(serviceMethods, meta.methods)
      + MetadataMethodIssues(meta.methods, serviceMethods, resolved)
      + OperationsIssues(meta.openapiOps, meta.manualOps, meta.overrideOps)
  }

  /** The issues validateOperations can report. */
  predicate IsOperationsIssue(i: Issue) {
    i.DuplicatedOpenapi? || i.DuplicatedManual? || i.InBothLayers? || i.DuplicatedOverride? || i.UnknownOverride?
  }

  lemma {:induction false} OpenapiIssuesKinds(names: seq<string>)
    ensures forall k :: 0 <= k < |OpenapiIssues(names)| ==> IsOperationsIssue(OpenapiIssues(names)[k])
  {
    if |names| > 0 {
      OpenapiIssuesKinds(names[..|names| - 1]);
    }
  }

  lemma {:induction false} ManualIssuesKinds(names: seq<string>, openapi: seq<string>)
    ensures forall k :: 0 <= k < |ManualIssues(names, openapi)| ==> IsOperationsIssue(ManualIssues(names, openapi)[k])
  {
    if |names| > 0 {
      ManualIssuesKinds(names[..|names| - 1], openapi);
    }
  }

  lemma {:induction false} OverrideIssuesKinds(names: seq<string>, manual: seq<string>, openapi: seq<string>)
    ensures forall k :: 0 <= k < |OverrideIssues(names, manual, openapi)| ==>
      IsOperationsIssue(OverrideIssues(names, manual, openapi)[k])
  {
    if |names| > 0 {
      OverrideIssuesKinds(names[..|names| - 1], manual, openapi);
    }
  }

  /**
    The two per-method checks of the whole validation: "Methods in metadata.yaml
    must exist in github package" and "must have at least one operation".
  */
  lemma MetadataMethodChecks(meta: MetadataView, serviceMethods: seq<string>, m: string)
    ensures NotInPackage(m) in MetadataIssues(meta, serviceMethods)
        <==> m in MethodNames(meta.methods) && m !in serviceMethods
    ensures NoOperations(m) in MetadataIssues(meta, serviceMethods)
        <==> exists i :: 0 <= i < |meta.methods| && FirstOfName(meta.methods, i, m) && |meta.methods[i].opNames| == 0
  {
    var resolved := Resolved(meta);
    OnlyMethodChecksReport(meta, serviceMethods, m);
    NotInPackageExact(meta.methods, serviceMethods, resolved, m);
    NoOperationsExact(meta.methods, serviceMethods, resolved, m);
  }

  /** Neither per-method issue comes from the inventory check or from validateOperations. */
  lemma OnlyMethodChecksReport(meta: MetadataView, serviceMethods: seq<string>, m: string)
    ensures NotInPackage(m) in MetadataIssues(meta, serviceMethods)
        <==> NotInPackage(m) in MetadataMethodIssues(meta.methods, serviceMethods, Resolved(meta))
    ensures NoOperations(m) in MetadataIssues(meta, serviceMethods)
        <==> NoOperations(m) in MetadataMethodIssues(meta.methods, serviceMethods, Resolved(meta))
  {
    var before := ServiceExistIssues(serviceMethods, meta.methods);
    var after := OperationsIssues(meta.openapiOps, meta.manualOps, meta.overrideOps);
    ServiceExistIssuesExact(serviceMethods, meta.methods, m);
    OpenapiIssuesKinds(OpNames(meta.openapiOps));
    ManualIssuesKinds(OpNames(meta.manualOps), OpNames(meta.openapiOps));
    OverrideIssuesKinds(OpNames(meta.overrideOps), OpNames(meta.manualOps), OpNames(meta.openapiOps));
    assert forall k :: 0 <= k < |after| ==> IsOperationsIssue(after[k]);
    assert NotInPackage(m) !in before && NoOperations(m) !in before;
    assert NotInPackage(m) !in after && NoOperations(m) !in after;
  }

  /**
    ValidateMetadata: `inventory` is the result of listing the service methods
    (None when that fails, which is passed on as an error).
  */
  method ValidateMetadata(meta: MetadataView, inventory: Option<seq<string>>) returns (r: Option<seq<string>>)
    ensures inventory.None? ==> r.None?
    ensures inventory.Some? ==> r == Some(Messages(MetadataIssues(meta, inventory.value)))
  {
    if inventory.None? {
      return None;
    }
    var serviceMethods := inventory.value;
    var resolved := ResolveOps(meta.openapiOps, meta.manualOps, meta.overrideOps);
    var result: seq<Issue> := [];
    result := ValidateServiceMethodsExist(result, meta.methods, serviceMethods);
    assert result == ServiceExistIssues(serviceMethods, meta.methods);
    result := ValidateMetadataMethods(result, meta.methods, serviceMethods, resolved);
    result := ValidateOperations(result, meta.openapiOps, meta.manualOps, meta.overrideOps);
    assert result == MetadataIssues(meta, serviceMethods);
    r := Some(Messages(result));
  }
}
