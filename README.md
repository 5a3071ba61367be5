# go-github metadata and lint tooling, modelled in Dafny

This project models the tools that go-github uses to keep its REST metadata
and its Go sources consistent, and proves properties of that model.

- **Body analyzer** (`body.dfy`, `body_props.dfy`). It walks a service
  method's body once and finds three things: the HTTP verb, the variable
  holding the URL, and the URL templates. It records name/template bindings
  and marks the first time the URL variable becomes known. It also detects
  helper methods. The model has two layers:
  - specification functions: `CallOf`, `AssignOf`, `Walk`, `Step` and `WalkIf`;
  - a `BodyData` class whose methods update its fields in place, as the Go
    `bodyData` does. Each method is proved to compute exactly the
    corresponding function.
- **Endpoint extractor** (`endpoints.dfy`):
  - service discovery from the `Client` struct;
  - the per-declaration filter and error rule of `processAST`;
  - the helper resolution `resolveHelpers`, in which each endpoint takes its
    helper's current verb, on an `EndpointTable` class whose map is updated
    in place.
- **Service-method inventory** (`inventory.dfy`):
  - the filters of `serviceMethodFromNode` and what it records;
  - the file and package filter;
  - the inventory order: by filename, then by `Receiver.Method`.
- **Metadata** (`metadata.go` → `metadata.dfy`, `doclinks.dfy`):
  - operation IDs and their normalised form;
  - the `Less` order;
  - the layered `resolve` of openapi, manual and override operations, memoised
    in a `MetadataFile` class;
  - `DocumentationURL`, `Plans` and `addOperation`;
  - the method/operation lookups;
  - doc-URL normalisation, `sameDocLink`, and the doc-comment rewrite of
    `updateDocsLinksForNode`.
- **Validator** (`validate.dfy`). Issues are a datatype, and `Message` renders
  each one as the exact text the tool prints. Each of the four validators is
  a loop proved to append exactly a specification function's issues.
  `ValidateMetadata` runs them in the tool's order.
- **Description directories** (`openapi.dfy`):
  - classification of directory names against the three plan patterns;
  - dropping GHES releases before 3;
  - the sort by plan, then by release, newest first.
- **update-urls** (`updateurls.dfy`):
  - the comment-line rewrite: drop doc-link lines, trim trailing empty lines,
    append a separator and the links;
  - the declaration walk of `updateFile`.
- **Lint** (`lint_format.dfy`, `lint_rules.dfy`):
  - the `github-actions` formatter, which writes workflow-command `::error`
    lines;
  - the `int_ids` rule, which flags `…ID` struct fields of type `int` or `*int`.

Supporting modules:
- `options.dfy`: `Option`.
- `text.dfy`: Go's string functions and byte order on strings.
- `sorting.dfy`: an in-place sort standing for `sort.Slice`.
- `goast.dfy`: the small Go syntax tree the tools inspect.
- `patterns.dfy`: the tools' regular expressions as string predicates.

Readings of the code that the model follows:

- **Sort order of operations.** `Less` (tools/internal/metadata.go:89-105)
  compares the URL first and uses the verb only as a tie-break, so the
  canonical order is by path, then by verb.
- **Unhandled syntax shapes.** An unhandled statement, else form or
  declaration returns an error (tools/internal/pp/pp.go:248, 367, 393). An
  unhandled call argument, receiver or left-hand side aborts the process
  with `log.Fatalf` (tools/internal/pp/pp.go:442-469, 497). The model has an
  error for the first kind and a distinct `Abort` failure for the second.
- **Validator inputs.** The validator (tools/internal/validate.go) reads
  `meta.Methods`, `getMethod`, `getOperation` and
  `getOperationsWithNormalizedName`, and takes the inventory as a list of
  strings. The `Metadata` type of tools/internal/metadata.go has
  `MethodOperations` instead, and `getServiceMethods` returns records. The
  model therefore gives the validator:
  - a `MetadataView` with a list of `MethodEntry(name, opNames)`;
  - the inventory as `Option<seq<string>>`.

  Its lookups are:
  - `getOperation(n)`: `n in ResolveOps(...)`;
  - `getOperationsWithNormalizedName(n)`: the resolved names with the same
    normalised ID;
  - `getMethod(n)`: a metadata entry with that name.

## Model

| member | source | states |
|---|---|---|
| BodyAnalysis.SelectorArg | tools/internal/pp/pp.go:421-430 | an `x.sel` argument is written `x.sel`, except that `http.Method…` becomes the verb after the `http.Method` prefix, each letter upper-cased (`UpperChar` of the character 11 places further on) |
| BodyAnalysis.ProcessCallExpr | tools/internal/pp/pp.go:400-472 | the argument loop and receiver switch return exactly `CallOf(e)`: literal args keep their quotes, `fmt.Sprintf` args give their format, unhandled shapes abort |
| BodyAnalysis.ArgsOfAbort | tools/internal/pp/pp.go:441-446 | one argument of an unhandled kind makes the whole call abort |
| BodyAnalysis.PrefixAbortAborts | tools/internal/pp/pp.go:403-446 | an abort among the first i arguments aborts the call, whatever follows |
| BodyAnalysis.LhsNamesAbort | tools/internal/pp/pp.go:488-499 | an unhandled left-hand side aborts the whole assignment |
| BodyAnalysis.RhsFoldAbort | tools/internal/pp/pp.go:501-564 | an aborting right-hand side aborts the whole assignment |
| BodyAnalysis.ProcessAssignStmt | tools/internal/pp/pp.go:486-569 | the lhs and rhs loops return exactly `AssignOf`: verb, URL variable, helper and bindings of the statement |
| BodyAnalysis.ProcessRhs | tools/internal/pp/pp.go:501-564 | one right-hand side, literal, call or anything else, updates the assignment exactly as `RhsStep` says |
| BodyAnalysis.ApplyCallRule | tools/internal/pp/pp.go:512-548 | the switch on the call name updates the assignment exactly as `CallRule` says, aborting on too few arguments |
| BodyAnalysis.AppendMatching | tools/internal/pp/pp.go:300-306 | appends the value of every binding of the URL variable, in binding order |
| BodyAnalysis.ScanMatches | tools/internal/pp/pp.go:300-306 | the loop over the assignments gives `ReturnMatches`: every value bound to the URL argument becomes a URL format |
| BodyAnalysis.BodyData.ApplyMatches | tools/internal/pp/pp.go:300-306 | the fields become `ReturnMatches` of the old fields |
| BodyAnalysis.BodyData.ParseBody | tools/internal/pp/pp.go:269-373 | the new fields and the returned failure are exactly `Walk` of the old fields over the statements |
| BodyAnalysis.BodyData.ParseStmt | tools/internal/pp/pp.go:272-371 | one statement updates the fields and fails exactly as `Step` says; unhandled statement kinds are an error |
| BodyAnalysis.BodyData.AssignStmt | tools/internal/pp/pp.go:276-309 | an assignment statement updates the fields exactly as `Step` says, including the two-verbs error |
| BodyAnalysis.BodyData.Absorb | tools/internal/pp/pp.go:281-309 | without a verb conflict, verb/helper/bindings/templates are updated and the URL variable learned, as `ApplyAssign` says |
| BodyAnalysis.BodyData.ReturnStmt | tools/internal/pp/pp.go:320-358 | a return statement updates the fields exactly as `Step` says (ctx check, lone template, matching bindings) |
| BodyAnalysis.BodyData.ParseIf | tools/internal/pp/pp.go:375-398 | the then-block and the else-block or nested if are analysed into the same fields, as `WalkIf` says |
| BodyProperties.MatchingAppend | tools/internal/pp/pp.go:300-306 | the values bound to a name in `a + b` are those in `a` followed by those in `b` |
| BodyProperties.MatchingExact | tools/internal/pp/pp.go:300-306 | every collected value comes from a binding of that name, and none is collected iff no binding has that name |
| BodyProperties.WalkAppend | tools/internal/pp/pp.go:274-370 | analysing `b1 + b2` is analysing `b1`, then `b2` from where it stopped, stopping at the first failure |
| BodyProperties.IfChainIsSequential | tools/internal/pp/pp.go:375-398 | an if/else chain is analysed exactly like all of its blocks one after another, into one accumulator |
| BodyProperties.SuccessMeansHandled | tools/internal/pp/pp.go:365-368 | a walk without failure met no unknown statement kind and no unknown else form |
| BodyProperties.StepSuccessMeansHandled | tools/internal/pp/pp.go:365-368 | a statement analysed without failure is of a handled kind |
| BodyProperties.IfSuccessMeansHandled | tools/internal/pp/pp.go:391-394 | an if statement analysed without failure has only handled else forms |
| BodyProperties.WalkPreserves | tools/internal/pp/pp.go:274-370 | any accumulator invariant kept by assignments and returns holds after the whole walk, even one that stops early |
| BodyProperties.StepPreserves | tools/internal/pp/pp.go:274-370 | the same for one statement |
| BodyProperties.WalkIfPreserves | tools/internal/pp/pp.go:375-398 | the same for an if/else chain |
| BodyProperties.VerbNeverChangesOnceSet | tools/internal/pp/pp.go:278-283 | once the verb is known it never changes, whether the walk succeeds or fails |
| BodyProperties.OnlyAppends | tools/internal/pp/pp.go:288-306 | earlier templates and bindings are kept as a prefix: the analyzer only appends |
| BodyProperties.SuccessMeansOneVerb | tools/internal/pp/pp.go:274-283 | after a successful walk every assignment anywhere in the body, inside if and else blocks too, that names a verb names the final verb, and a verb known before is kept |
| BodyProperties.ConflictingVerbsFail | tools/internal/pp/pp.go:274-283 | two assignments anywhere in the body, at any depth, that name different verbs make the walk fail |
| BodyProperties.ConflictingVerbsMessage | tools/internal/pp/pp.go:278-280 | after a successful prefix with a verb, an assignment with another verb fails with "found two httpMethod values" carrying both verbs |
| BodyProperties.UrlVarSticky | tools/internal/pp/pp.go:297-299 | a known URL variable is never replaced by a later assignment (a return of a helper call can still replace it, pp.go:352) |
| BodyProperties.UrlVarRetroactive | tools/internal/pp/pp.go:290-308 | when the URL variable is first learned, every earlier binding of it becomes a template, in binding order, after a quoted literal URL |
| BodyProperties.QuotedUrlIsTemplate | tools/internal/pp/pp.go:290-294 | a URL argument that is a quoted literal is appended as a template without its quotes |
| BodyProperties.LiteralAssignments | tools/internal/pp/pp.go:502-507 | literal assignments bind only lhs names, never a value starting with `?`, and set no verb, URL variable or helper |
| BodyProperties.LiteralAssignmentsAbort | tools/internal/pp/pp.go:502-507 | a literal assignment aborts exactly when a recorded literal has no lhs at its index |
| BodyProperties.LiteralFoldAborts | tools/internal/pp/pp.go:502-507 | over literal right-hand sides the fold aborts iff some position past the names holds a value not starting with `?` |
| BodyProperties.FixedCallRules | tools/internal/pp/pp.go:512-531 | NewRequest, NewUploadRequest, roundTripWithOptionalFollowRedirect, Sprintf and addOptions give the fixed verb, URL variable and bindings; too few args abort |
| BodyProperties.HelperCallRules | tools/internal/pp/pp.go:535-548 | a same-receiver call with ctx first: "s.search" gives GET, "u" and u = "search/"+arg1; any other gives arg1 as URL variable and the callee as helper |
| BodyProperties.ReturnHelperRules | tools/internal/pp/pp.go:333-356 | returning a same-receiver call with no verb: error unless arg0 is ctx; lone arg1 template and helper when nothing is bound; else arg1's bindings added |
| BodyProperties.ReturnAfterVerbIsInert | tools/internal/pp/pp.go:333 | once a verb is known a return statement changes nothing |
| BodyProperties.LiteralRequest | tools/internal/internal.go:203-225 | a first `NewRequest(verb, "lit")` yields that verb, and the unquoted literal as the one template |
| BodyProperties.NewRequestRule | tools/internal/pp/pp.go:523-525 | NewRequest sets the verb to arg0 without quotes and the URL variable to arg1 |
| BodyProperties.PlainArgs | tools/internal/pp/pp.go:407-418 | identifiers and literals are passed on as written, literals with their quotes, in order |
| Endpoints.ServiceFields | tools/internal/pp/pp.go:107-122 | every collected name ends in "Service" |
| Endpoints.ServiceFieldsExact | tools/internal/pp/pp.go:107-122 | a name is collected iff it is the type name of a one-name `*XService` field |
| Endpoints.ClientServices | tools/internal/pp/pp.go:92-128 | every service name ends in "Service"; none exactly when no declaration is a documented Client struct |
| Endpoints.ClientServicesFirst | tools/internal/pp/pp.go:92-128 | the services found are the service fields of the first declaration that is a documented Client struct |
| Endpoints.FindClientServices | tools/internal/pp/pp.go:91-129 | adds the Client struct's services to the table; reports the error case and leaves the table unchanged then |
| Endpoints.StdRefLines | tools/internal/pp/pp.go:208-220 | exactly the doc lines that mention docs.github.com are kept: every kept line mentions it and comes from the comment, and every line of the comment that mentions it is kept |
| Endpoints.DeclEffect | tools/internal/pp/pp.go:161-249 | a recorded endpoint is a method of a known service, not skipped, keyed `Service.Method`; a collected error is a value receiver off the allow list; type declarations are skipped |
| Endpoints.OnlyServiceMethodsRecorded | tools/internal/pp/pp.go:184-193 | processAST records only methods of known services, never one in skipMethods, under `Service.Method` |
| Endpoints.UnresolvableEndpointFails | tools/internal/pp/pp.go:240-245 | an exported endpoint with no verb and no helper or no template is recorded only by a run that fails with that one "could not find body info" error |
| Endpoints.CollectedErrorsAreReceivers | tools/internal/pp/pp.go:170-179 | a failed file reports only value-receiver methods off the allow list, or the single error that stopped it |
| Endpoints.GenDeclsOnly | tools/internal/pp/pp.go:246 | a file of type and variable declarations only changes nothing and succeeds |
| Endpoints.EndpointTable.ProcessAST | tools/internal/pp/pp.go:158-257 | the new table and the outcome are exactly `ProcessDecls` over the file's declarations |
| Endpoints.ResolveEndpoints | tools/internal/pp/pp.go:571-595 | only verbs are written; an endpoint needing a helper gets its helper's non-empty verb; missing helper and helper without verb are the two errors; no error when every helper resolves |
| Endpoints.EndpointTable.ResolveHelpers | tools/internal/pp/pp.go:571-595 | the table becomes what `ResolveEndpoints` promises of the old table, with its error |
| Inventory.Base | tools/internal/internal.go:166 | the last element of a path: no `/`, a suffix of the path that is either the whole path or preceded by a `/` |
| Inventory.MethodFromDecl | tools/internal/internal.go:136-185 | a kept method has one pointer receiver to an identifier, both names exported, a Client or …Service receiver, not Client in github.go; its helper is prefixed by the receiver type |
| Inventory.FromAnalysis | tools/internal/internal.go:174-184 | an analysed method keeps its receiver, name and file, and its helper is prefixed by the receiver type |
| Inventory.KeptIff | tools/internal/internal.go:141-168 | a declaration is dropped exactly when it fails one of the filters |
| Inventory.FailedAnalysisKeepsMethod | tools/internal/internal.go:174-178 | when the body analysis fails the method is still listed, with no verb, URLs or helper |
| Inventory.AnalysisRecorded | tools/internal/internal.go:179-184 | a successful analysis records the verb and URLs, and the helper as `Receiver.helper` only when there is one |
| Inventory.NameCut | tools/internal/internal.go:82-84 | `name()` splits back into receiver and method at its first dot |
| Inventory.ServiceMethodFromNode | tools/internal/internal.go:136-185 | the method computes exactly `MethodFromDecl` |
| Inventory.AnalyzeBody | tools/internal/internal.go:170-184 | running the analyzer on a fresh state gives `FromAnalysis` of `Walk` over the body |
| Inventory.MethodsOfDecls | tools/internal/internal.go:125-132 | at most one method per declaration, each with the file's name and a service receiver |
| Inventory.MethodsOfFile | tools/internal/internal.go:109-134 | non-Go and test files and packages other than github give no methods; a parse error only for a Go file that does not parse |
| Inventory.GetServiceMethodsFromFile | tools/internal/internal.go:109-134 | the declaration loop computes exactly `MethodsOfFile` |
| Inventory.MethodsOfDeclsPanic | tools/internal/internal.go:174 | once a declaration panics the whole file panics |
| Inventory.AllMethods | tools/internal/internal.go:91-98 | every listed method comes from one of the listed files |
| Inventory.MethodLessOrder | tools/internal/internal.go:99-104 | the inventory comparison is a strict weak order |
| Inventory.GetServiceMethods | tools/internal/internal.go:86-106 | the inventory is sorted by filename then name, is a permutation of the files' methods, and the first file error is returned |
| Inventory.AllMethodsFails | tools/internal/internal.go:92-96 | the first file that fails decides the result |
| Metadata.ParseID | tools/internal/metadata.go:145-148 | the verb is the text before the first space and the URL the rest; with no space the URL is empty |
| Metadata.NormalizedURL | tools/internal/metadata.go:122-138 | the in-place segment loop computes `Normalized(u)` |
| Metadata.NormalizedSegments | tools/internal/metadata.go:129-135 | the segments of the normalised URL are the normalised segments, as many as before |
| Metadata.NormalizedSegment | tools/internal/metadata.go:130-134 | segment i of the result is `*` for a template segment and the original otherwise |
| Metadata.NormalizedIdempotent | tools/internal/metadata.go:129-135 | normalising twice equals normalising once |
| Metadata.ParseNormalizedID | tools/internal/metadata.go:140-148 | a normalised ID keeps the verb and normalises only the URL |
| Metadata.NormalizedIDIdempotent | tools/internal/metadata.go:140-143 | normalizedID is idempotent |
| Metadata.IDLessIsKeyed | tools/internal/metadata.go:98-105 | Less is the lexicographic order on (URL, verb) |
| Metadata.Op2LessOrder | tools/internal/metadata.go:98-105 | Operation2.Less is a strict weak order |
| Metadata.OpLessOrder | tools/internal/metadata.go:89-96 | Operation.Less is a strict weak order |
| Metadata.DocumentationURL | tools/internal/metadata.go:82-87 | the override URL when non-empty, else the openapi URL |
| Metadata.PlanList | tools/internal/metadata.go:62-80 | "public", "ghec", "ghes" each present iff its flag is set, nothing else, in that order |
| Metadata.PlansListed | tools/internal/metadata.go:62-80 | an operation lists a plan iff one of its description files belongs to that plan, in canonical order |
| Metadata.LastNamed | tools/internal/metadata.go:169-174 | the last operation of a layer with a name, none iff no operation has it |
| Metadata.SeedLookup | tools/internal/metadata.go:169-174 | seeding binds each name to its last operation of the layer and keeps the others |
| Metadata.OverrideLookup | tools/internal/metadata.go:175-186 | an override of an unknown name adds it; non-empty override URL and files replace the base fields, empty ones leave them; unnamed entries are untouched |
| Metadata.OverrideStepLookup | tools/internal/metadata.go:175-186 | one override adds an unknown name, replaces the URL and files when non-empty, and leaves every other name alone |
| Metadata.ApplyOverride | tools/internal/metadata.go:175-186 | the three checks of one override compute `OverrideStep` |
| Metadata.SeedLayer | tools/internal/metadata.go:169-174 | the loop over a layer computes `Seed` |
| Metadata.OverrideLayer | tools/internal/metadata.go:175-186 | the loop over the overrides computes `ApplyOverrides` |
| Metadata.ResolveWithoutOverride | tools/internal/metadata.go:168-174 | without an override a name resolves to its manual operation, else its openapi operation |
| Metadata.ResolvedUnderOwnName | tools/internal/metadata.go:168-186 | every resolved operation is filed under its own name |
| Metadata.FirstKeyed | tools/internal/metadata.go:245-249 | the first element whose normalised key matches, none iff no element has it |
| Metadata.FirstKeyedUnchanged | tools/internal/metadata.go:245-278 | updating an element in place or appending a matching one keeps the first match, so a second add finds the same operation |
| Metadata.FindKeyed | tools/internal/metadata.go:245-249 | the search loop computes `FirstKeyed` |
| Metadata.AddOpFindable | tools/internal/metadata.go:244-278 | after addOperation the normalised ID finds an operation listing the file (or already listing a GHES file) |
| Metadata.AddOpGhesOnce | tools/internal/metadata.go:257-267 | addOperation never gives an operation a second GHES file |
| Metadata.WithFileExtends | tools/internal/metadata.go:250-268 | an empty file list becomes exactly [filename] with the doc URL; a non-empty one is only extended, by the file when it is not GHES |
| Metadata.ByID | tools/internal/metadata.go:293-301 | exactly the old operations with that ID, each as often as listed |
| Metadata.ByIDs | tools/internal/metadata.go:303-310 | only old operations whose ID the method lists |
| Metadata.ByIDsCount | tools/internal/metadata.go:293-310 | each old operation occurs as often as its ID is listed times as often as it is among the old operations: none missing, none extra |
| Metadata.MetadataFile.Resolve | tools/internal/metadata.go:162-187 | computes `ResolveOps` once; once computed a later call changes nothing; the layers are unchanged |
| Metadata.MetadataFile.Operations | tools/internal/metadata.go:189-197 | every resolved operation exactly once, sorted by URL then verb |
| Metadata.MetadataFile.AddOperation | tools/internal/metadata.go:244-278 | the old operations become `AddOp` of them; nothing else changes |
| Metadata.MetadataFile.OperationMethods | tools/internal/metadata.go:281-291 | each method as often as it lists the operation ID |
| Metadata.AppendPerMatch | tools/internal/metadata.go:284-289 | as a multiset, the old names plus the method name once per listed ID equal to the operation's |
| Metadata.MetadataFile.OperationsByID | tools/internal/metadata.go:293-301 | the loop computes `ByID` |
| Metadata.MetadataFile.OperationsByIDs | tools/internal/metadata.go:303-310 | the loop computes `ByIDs` |
| Metadata.MetadataFile.OperationsForMethod | tools/internal/metadata.go:303-315 | a permutation of the old operations of the method's IDs, sorted by URL then verb |
| Metadata.CollectValues | tools/internal/metadata.go:191-194 | one value per key of the resolved map |
| Metadata.SortOperations | tools/internal/metadata.go:107-111 | the same operations, sorted by Less |
| Metadata.AddFile | tools/internal/metadata.go:250-268 | the matched operation's update is `WithFile` |
| Metadata.AddOpTo | tools/internal/metadata.go:244-278 | the search loop computes `AddOp` |
| DocLinks.DocPrefix | tools/internal/metadata.go:491 | a match starts with the documentation host and ends right after a `/rest/` |
| DocLinks.DocPrefixGreedy | tools/internal/metadata.go:491 | `.*` is greedy: the match ends at the last `/rest/`, and there is none iff the host is absent or no `/rest/` follows it |
| DocLinks.NormalizeDocURLPath | tools/internal/metadata.go:493-498 | a URL that is not a REST docs page is returned with only its first `/en/` removed |
| DocLinks.NormalizeCanonical | tools/internal/metadata.go:493-511 | a public REST page becomes the canonical prefix plus what followed the last `/rest/` |
| DocLinks.CanonicalPrefix | tools/internal/metadata.go:511 | the canonical form's pattern match is exactly the canonical prefix |
| DocLinks.StripURLQuery | tools/internal/metadata.go:529-536 | removing the query never lengthens the URL |
| DocLinks.StripURLQueryIdempotent | tools/internal/metadata.go:529-536 | stripping the query twice is stripping it once |
| DocLinks.SameDocLinkEquivalence | tools/internal/metadata.go:519-527 | sameDocLink is reflexive, symmetric and transitive |
| DocLinks.MatchLink | tools/internal/metadata.go:446-453 | the link found is still present and names the same page; when the visit order covers the present links, none is found iff no present link names the same page |
| DocLinks.KeepDocLines | tools/internal/metadata.go:440-457 | links are only used up, and each link used up keeps one doc line |
| DocLinks.KeepDocLineIff | tools/internal/metadata.go:440-457 | a doc line is kept iff a link still present names the same page, and keeping it uses up one such link; a dropped line uses up none |
| DocLinks.KeepsOtherLines | tools/internal/metadata.go:440-457 | every line without a doc link is kept in order, and only comment lines are kept |
| DocLinks.TrimEmpty | tools/internal/metadata.go:460-465 | a prefix of the lines that ends in a non-empty line, with only empty lines removed |
| DocLinks.LinkLines | tools/internal/metadata.go:477-484 | every appended line is a doc line and never an empty line, so a later trim keeps it; line k is for link k |
| DocLinks.SortLinks | tools/internal/metadata.go:474-475 | the links left, each once, in increasing order: exactly `SortedSet` of them |
| DocLinks.SortedSetUnique | tools/internal/metadata.go:474-475 | the only increasing listing of a set of links is `SortedSet` |
| DocLinks.HasLeast | tools/internal/metadata.go:474-475 | every non-empty set of links has a least one under Go's string order |
| DocLinks.UpdateDocComments | tools/internal/metadata.go:429-485 | kept lines, trimmed, then a separator when needed, then the unused links sorted: exactly `UpdatedDoc` |
| DocLinks.KeepMatchingLines | tools/internal/metadata.go:439-457 | the first loop computes `KeepDocLines` |
| DocLinks.FindLink | tools/internal/metadata.go:447-453 | the inner loop computes `MatchLink` |
| DocLinks.TrimEmptyLines | tools/internal/metadata.go:460-465 | the trimming loop computes `TrimEmpty` |
| DocLinks.AppendLinkLines | tools/internal/metadata.go:477-484 | the append loop computes `LinkLines` |
| DocLinks.AppendEach | tools/internal/metadata.go:477-484 | the loop gives one line per link, in order |
| DocLinks.UpdateDocsLinksForNode | tools/internal/metadata.go:407-487 | non-exported functions and non-exported receivers are untouched; an empty receiver list or a non-identifier pointer receiver panics; a declaration is rewritten iff it is an exported method on an exported receiver type, and the new comment is `UpdatedDoc` of the old one with the links of `Receiver.Method`'s operations |
| DocLinks.ReceiverType | tools/internal/metadata.go:416-424 | a declaration without a receiver has the empty receiver type; the read panics (`None`) exactly when the receiver list is empty or the receiver is a pointer to something other than an identifier |
| DocLinks.LinksOfSameMembers | tools/internal/metadata.go:430-433 | the link set of a method's operations does not depend on their order |
| Patterns.DocsLabelAt | tools/update-urls/update-urls.go:78 | a `GitHub\s+API\s+docs:` match ends after its start |
| Patterns.DocLink | tools/internal/metadata.go:403 | a line with a doc-link URL is a doc line |
| Patterns.DocLinkFromSound | tools/internal/metadata.go:403 | a link found from any index means the line is a doc line |
| Patterns.DocLinkLineIsDocLine | tools/update-urls/update-urls.go:78-79 | every written link line matches the doc-line pattern and not the empty-line pattern |
| Patterns.SeparatorIsEmptyLine | tools/update-urls/update-urls.go:79 | "//" matches the empty-line pattern and not the doc-line pattern |
| OpenapiDirs.Atoi | tools/internal/openapi.go:104-105 | an absent version or a non-digit text is 0; digit strings in range give their value; out of range gives the largest int |
| OpenapiDirs.MatchVersion | tools/internal/openapi.go:70-72 | the tail is empty or `-major.minor` with non-empty digit groups |
| OpenapiDirs.ClassifiedShape | tools/internal/openapi.go:98-117 | a kept entry's plan is its first matching pattern, its file is descriptions/n/n.json, its release the parsed groups, and a GHES release is at least 3 |
| OpenapiDirs.ClassifyDir | tools/internal/openapi.go:98-118 | the pattern loop with continue/break computes `Classify` |
| OpenapiDirs.DescriptionFiles | tools/internal/openapi.go:96-122 | the kept entries, sorted by less, as a permutation of the classified list |
| OpenapiDirs.LessOrder | tools/internal/openapi.go:59-67 | less is a strict weak order |
| OpenapiDirs.SortedByPlanThenRelease | tools/internal/openapi.go:55-67 | in the output plans never go back and, within a plan, major then minor never go up |
| OpenapiDirs.ClassifyKeeps | tools/internal/openapi.go:98-108 | a name is dropped iff every matching pattern is GHES with major below 3 |
| OpenapiDirs.OldGhesDropped | tools/internal/openapi.go:106-108 | a GHES release before 3 is dropped |
| OpenapiDirs.BareGhesDropped | tools/internal/openapi.go:104-108 | bare "ghes" parses as release 0 and is dropped |
| OpenapiDirs.BarePlanKept | tools/internal/openapi.go:70-71 | bare "api.github.com" and "ghec" are kept with release 0.0 |
| OpenapiDirs.VersionedPlanKept | tools/internal/openapi.go:98-117 | `plan-major.minor` is kept under that plan with that release |
| OpenapiDirs.VersionedNameKept | tools/internal/openapi.go:98-117 | the same for any digit strings |
| OpenapiDirs.VersionMatches | tools/internal/openapi.go:70-72 | `plan-ma.mi` matches the plan's pattern with groups ma and mi |
| UpdateUrls.DropDocLines | tools/update-urls/update-urls.go:113-118 | never more lines than before |
| UpdateUrls.LinkLinesOf | tools/update-urls/update-urls.go:135-137 | one line per link |
| UpdateUrls.RewriteCommentLines | tools/update-urls/update-urls.go:112-138 | the loops compute `RewriteComments` |
| UpdateUrls.DropDocLinesExact | tools/update-urls/update-urls.go:113-118 | no doc line survives and every other line is kept |
| UpdateUrls.DropDocLinesClean | tools/update-urls/update-urls.go:113-118 | lines without doc lines pass unchanged |
| UpdateUrls.LinkLinesDropped | tools/update-urls/update-urls.go:78 | the written link lines are all removed by a second pass |
| UpdateUrls.TrimEmptyTail | tools/update-urls/update-urls.go:120-126 | trailing empty lines after a non-empty line are all removed |
| UpdateUrls.RewriteIdempotent | tools/update-urls/update-urls.go:112-138 | rewriting twice with the same links equals rewriting once |
| UpdateUrls.LinkBlockShape | tools/update-urls/update-urls.go:130-137 | with links: exactly one "//" and then one doc line per link, in order |
| UpdateUrls.LinkLinesAt | tools/update-urls/update-urls.go:135-137 | line k is the doc line of link k |
| UpdateUrls.UpdateDecl | tools/update-urls/update-urls.go:93-139 | a declaration keeps its kind |
| UpdateUrls.UpdateDecls | tools/update-urls/update-urls.go:93-140 | one declaration out per declaration in |
| UpdateUrls.UpdateFile | tools/update-urls/update-urls.go:82-140 | the walk computes `UpdatedFile`; other packages are returned unchanged |
| UpdateUrls.UpdateDeclsPanicPersists | tools/update-urls/update-urls.go:105-110 | a receiver panic anywhere ends the whole rewrite |
| UpdateUrls.UpdateDeclsKeepsShape | tools/update-urls/update-urls.go:94-99 | only exported methods' comments change |
| UpdateUrls.UpdateDeclsIdempotent | tools/update-urls/update-urls.go:93-140 | a second run with the same links changes nothing |
| UpdateUrls.UpdatedFileIdempotent | tools/update-urls/update-urls.go:82-140 | the same for a whole file |
| Validate.Messages | tools/internal/validate.go:31-35 | one message per issue |
| Validate.MessagesAt | tools/internal/validate.go:31-35 | message k is the rendering of issue k |
| Validate.MessagesAppend | tools/internal/validate.go:31-35 | rendering distributes over appending |
| Validate.MissingMessageInjective | tools/internal/validate.go:104 | different missing methods give different messages |
| Validate.ServiceExistIssuesExact | tools/internal/validate.go:101-109 | a missing-from-metadata issue names exactly the inventory methods without metadata, and there are no other issues |
| Validate.ValidateServiceMethodsExist | tools/internal/validate.go:101-109 | appends exactly `ServiceExistIssues` |
| Validate.ValidateMetaMethodOperations | tools/internal/validate.go:74-99 | appends exactly `MethodOpIssues` |
| Validate.CheckOperationNames | tools/internal/validate.go:79-97 | the operation loop computes `OpNameIssues` |
| Validate.CheckOperationName | tools/internal/validate.go:86-96 | exact match, canonical-name or undefined issue |
| Validate.DuplicateOperationsCount | tools/internal/validate.go:79-85 | one duplicate-operation issue per repeat |
| Validate.UnresolvedOperationsCount | tools/internal/validate.go:86-96 | one canonical/undefined issue per name not resolved exactly |
| Validate.NoOperationsOneIssue | tools/internal/validate.go:75-78 | a method with no operations gets exactly one issue |
| Validate.OpNameIssueCases | tools/internal/validate.go:86-96 | no issue iff exact match; non-canonical iff only a normalised match; else undefined |
| Validate.NameSet | tools/internal/validate.go:53-56 | the lookup set holds exactly the listed names |
| Validate.CheckMethod | tools/internal/validate.go:59-69 | one entry's checks: duplicated and skipped, or not-in-package then the operations |
| Validate.MetadataMethodStep | tools/internal/validate.go:58-70 | one turn of the loop extends both the issues and the seen set |
| Validate.ValidateMetadataMethods | tools/internal/validate.go:52-72 | appends exactly `MetadataMethodIssues` |
| Validate.NotInPackageExact | tools/internal/validate.go:65-68 | a not-in-package issue is reported for m iff m is a metadata method name missing from the inventory |
| Validate.NoOperationsExact | tools/internal/validate.go:59-78 | a no-operations issue is reported for m iff the first entry named m lists no operation |
| Validate.DuplicatedMethodsCount | tools/internal/validate.go:58-69 | one duplicated issue per repeated method name |
| Validate.OpNameIssuesKinds | tools/internal/validate.go:79-97 | operation issues are only duplicate, non-canonical or undefined |
| Validate.CheckOpenapiOps | tools/internal/validate.go:115-121 | appends `OpenapiIssues`; the seen set is the openapi names |
| Validate.CheckManualOps | tools/internal/validate.go:122-132 | appends `ManualIssues`; the seen set is the manual names |
| Validate.CheckOverrideOps | tools/internal/validate.go:133-143 | appends `OverrideIssues` |
| Validate.ValidateOperations | tools/internal/validate.go:111-145 | appends exactly `OperationsIssues` |
| Validate.OpenapiIssuesCount | tools/internal/validate.go:115-121 | one issue per repeat, only duplicates, for exactly the repeated names |
| Validate.ManualIssuesCount | tools/internal/validate.go:122-132 | one duplicate issue per repeat; "exists in both" iff in both layers |
| Validate.OverrideIssuesCount | tools/internal/validate.go:133-143 | one duplicate issue per repeat; "does not exist" iff in neither layer |
| Validate.ValidateMetadata | tools/internal/validate.go:26-36 | a failed inventory is an error; otherwise the messages of the three validators in order (the per-method checks are characterised by `MetadataMethodChecks`) |
| Validate.MetadataMethodChecks | tools/internal/validate.go:16-20 | in the whole validation, a not-in-package issue names exactly the metadata methods missing from the inventory, and a no-operations issue exactly the methods whose first entry lists no operation |
| Validate.OnlyMethodChecksReport | tools/internal/validate.go:26-36 | those two issues come only from validateMetadataMethods |
| LintFormat.OptsSelected | tools/lint/github.go:16-30 | the options are exactly the keys whose condition holds, in the order file, line, col, endLine, endCol |
| LintFormat.StartSelected | tools/lint/github.go:17-23 | file and line only for a valid start; col only when its column is non-zero |
| LintFormat.EndSelected | tools/lint/github.go:24-29 | endLine only for a valid end; endCol only when its column is non-zero |
| LintFormat.BuildOpts | tools/lint/github.go:16-29 | the option loop computes `Opts` |
| LintFormat.FormatFailures | tools/lint/github.go:13-36 | the buffer loop computes `Format` |
| LintFormat.FormatLineShape | tools/lint/github.go:31-33 | each line ends in its only newline |
| LintFormat.FormatLineCount | tools/lint/github.go:15-34 | one newline per failure |
| LintFormat.FormatLinePlain | tools/lint/github.go:30-31 | with no newline in the message the line is `::error opts::msg` |
| LintRules.FlaggedIff | tools/lint/rules.go:37-48 | flagged iff the first name ends in ID and the type is int or *int |
| LintRules.StructFailures | tools/lint/rules.go:35-54 | at most one failure per field, with the fixed message; every flagged field is reported |
| LintRules.AppendStructFailures | tools/lint/rules.go:35-54 | the field loop appends exactly `StructFailures` |
| LintRules.FailuresOf | tools/lint/rules.go:27-56 | every failure of the struct types met carries the message and a flagged field |
| LintRules.FailuresOfComplete | tools/lint/rules.go:27-56 | every flagged field of every struct type met is reported with the message |
| LintRules.FailuresOfSound | tools/lint/rules.go:27-56 | every failure is about a field of one of the struct types met |
| LintRules.ApplyIntIds | tools/lint/rules.go:25-58 | for a file: every flagged field of every struct type the walk meets is reported with the message, and nothing else is |
| LintRules.OnlyOwnFields | tools/lint/rules.go:32-55 | a struct reports only its own fields |
| LintRules.NestedStructSkipped | tools/lint/rules.go:55 | a struct nested inside a field is not visited, while the same struct on its own is reported |
| LintRules.BodyStructsMet | tools/lint/rules.go:28-55 | struct types inside a local type declaration, a `var` declaration, a function literal and a composite literal are met |
| LintRules.OtherTypesNotFlagged | tools/lint/rules.go:41-47 | other types, selectors and double pointers are never flagged |
| Text.Cut | tools/internal/metadata.go:146 | the parts around the first separator, or the whole text |
| Text.CutAtFirst | tools/internal/metadata.go:146 | the cut at a separator absent from the left part gives back both parts |
| Text.Split | tools/internal/metadata.go:129 | at least one part, none containing the separator |
| Text.SplitJoin | tools/internal/metadata.go:129-135 | splitting what was joined gives back the parts |
| Text.JoinSplit | tools/internal/metadata.go:129-135 | joining what was split gives back the text |
| Text.TrimQuotes | tools/internal/pp/pp.go:504 | the result is the middle of the text: everything before it and after it is a quote, and it neither starts nor ends with one |
| Text.TrimQuotesOfQuoted | tools/internal/pp/pp.go:504 | a quoted text loses exactly its quotes |
| Text.Unquote | tools/internal/pp/pp.go:290 | a delimited text loses its delimiters |
| Text.TrimPrefix | tools/internal/pp/pp.go:427 | removes the prefix when present |
| Text.ToUpper | tools/internal/pp/pp.go:427 | the ASCII upper case, letter by letter |
| Text.Itoa | tools/lint/github.go:19 | the decimal of n: digits whose value is n, or `-` and digits whose value is -n, with no leading zero |
| Text.ReplaceAllRemoves | tools/lint/github.go:32 | no newline is left after the replacement |
| Text.ReplaceFirstAbsent | tools/internal/metadata.go:494 | replacing an absent text changes nothing |
| Text.StrLessIrreflexive | tools/internal/metadata.go:92-95 | no string is less than itself |
| Text.StrLessTransitive | tools/internal/metadata.go:92-95 | string order is transitive |
| Text.StrLessTotal | tools/internal/metadata.go:92-95 | distinct strings are ordered |
| Text.PairLessOrder | tools/internal/metadata.go:92-95 | comparing (URL, verb) or (filename, name) pairs lexicographically is a strict total order |
| Sorting.SortInPlace | tools/internal/internal.go:99-104 | sorted and a permutation of the input |
| Sorting.SortedCopy | tools/internal/metadata.go:107-111 | sorted and a permutation of the input |

## Left out

- Inventory.Base: differs from Go's `filepath.Base` on the empty path (Go gives `.`) and on a trailing slash (Go drops it, so `a/` gives `a`; the model gives the empty string); the directory listings it is applied to hold neither.
- Text.ToUpper: only ASCII letters are upper-cased; the `http.Method…` names it is applied to are ASCII.
- Patterns.LowerChar: the case-insensitive `docs:` label match folds only ASCII letters. Go's `(?i)` also folds a few other characters onto ASCII ones (`ſ` onto `s`, the Kelvin sign onto `k`), so a label spelled with them is not recognised here.
- File and network I/O is left out. This covers:
  - reading directories and files, and writing rewritten files;
  - the YAML decoder and encoder (`LoadMetadataFile`, `SaveFile`);
  - `UpdateFromGithub`, `loadDescription` and the download half of
    `GetDescriptions`;
  - `ValidateGitCommit`, `ProjRootDir` and `isGoGithubRoot`.

  The listing of a directory is a parameter.
- The Go parser, printer and `dst` decorator are not modelled. Sources are
  values of the small syntax tree in `goast.dfy`. That tree carries only the
  statement, expression and declaration shapes the tools inspect.
- Concurrency is left out:
  - the `errgroup` fan-out;
  - the mutexes around `resolve` and the `normalizedURL` memo cache.

  `normalizedURL` is a pure function, because the cache is transparent.
- Regular expressions are explicit string predicates in `patterns.dfy` and
  `DocLinks.DocPrefix`.
- `url.Parse` is reduced to `DocLinks.StripURLQuery`. It cuts the query
  between the first `?` and the fragment, and does no other parsing or
  re-encoding.
- `strconv.Unquote` is reduced to removing matching `"` or back-quote
  delimiters. Escape sequences are not interpreted.
- Text.Unquote: returns `None` for a double-quoted literal with an escaped
  quote inside, such as `"a\"b"`, which Go unquotes to `a"b`. Escapes are
  not modelled, and the analyzer only needs to tell a quoted literal from
  anything else.
- Text.Unquote: accepts a raw newline inside double quotes, which Go
  rejects. A literal taken from parsed Go source cannot hold one.
- `fmt` formatting (`%v`, `%q`, `%#v`) becomes concatenation. Error values
  are datatypes that carry the values their texts show.
- Go map iteration order is unspecified, so it is not modelled:
  - `resolveHelpers` visits the endpoints in an arbitrary order;
  - `OperationMethods` lists methods in an arbitrary order;
  - the link map of `updateDocsLinksForNode` is visited in an `order`
    parameter.

  Results are stated only up to that order.
- `resolve` writes through aliased `*Operation2` pointers into the layers
  themselves. The model resolves into a new map and leaves the layers
  unchanged.
- `sort.Slice` is not stable. Sorted results are promised only to be sorted
  and to be a permutation of their input, not to be one particular order
  among ties.
- The duplicated body analyzer in tools/internal/internal.go behaves exactly
  like the one in tools/internal/pp/pp.go, so it is modelled once.
- `findAllServiceEndpoints` is not modelled. It is the loop over files that
  joins the per-file errors.
- The `usedHelpers` and `endpointsByFilename` bookkeeping of
  `resolveHelpers` is not modelled, because nothing reads it.
- `enterpriseRefLines` is always empty in the source, so it is not modelled.
- `Metadata.DocLinksForMethod` is not part of this model. update-urls takes
  a method's links as the parameter `docLinksFor`.
- `meta.Methods`, `getMethod`, `getOperation` and
  `getOperationsWithNormalizedName` are not part of this model. They are
  specified as the lookups described above.
- `IsExported` treats only ASCII upper-case letters as upper case.
- `strconv.Atoi` assumes a 64-bit `int`.
- Positions and `log.Fatalf` messages are left out. A fatal branch is the
  `Abort` failure.
- The lint traversal visits every node kind that the syntax tree carries.
  That covers receivers, parameters and results, bodies, function literals,
  composite literals, `var`/`const`/`type` declarations (also inside
  bodies), `range`, `switch`, `defer` and expression statements. These parts
  of Go's tree are not carried, so struct types inside them are not met:
  - the init statement and condition of an `if`, and the init of a `switch`;
  - index, slice, channel, function-type and interface expressions;
  - the length of an array type;
  - other statement kinds (`for`, `go`, `select`, labelled, block,
    increment, send).
- DocLinks.StripURLQuery: states only that the result is no longer than the
  input, plus idempotence (`StripURLQueryIdempotent`), because the rest is
  `url.Parse` behaviour.
- DocLinks.NormalizeDocURLPath: its own contract covers only the non-REST
  case. The public-site case is stated by `NormalizeCanonical`. The two
  enterprise cases are not stated as lemmas.
- UpdateUrls.UpdateDecl: states only that the kind of declaration is kept.
  `UpdateDeclsKeepsShape` states where a change may happen and
  `UpdateDeclsIdempotent` that a second run is stable. That the new comment
  is `RewriteComments` of the old one with the method's links is said only
  by `UpdateDecl`'s body.
