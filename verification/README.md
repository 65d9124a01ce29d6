# A Dafny model of the contract pipeline, the Java source locator and the tree walkers

This Dafny project models three parts of the repository and proves what they promise.

**The contract pipeline.** `contracts/openapi.mjs` projects a schema of an OpenAPI document, whose components
may refer to each other in cycles, into one self-contained schema; `contracts/emit.mjs` folds the endpoints a
scan found, and the results of reconciling them with such a document, into a map of operations and a list of
warnings; `contracts/completeness.mjs` turns the warnings into a verdict that waivers with an expiry date can
soften; `contracts/validate.mjs` nests an operation's projected schema into a payload schema and judges an
envelope by it; `contracts/csv.mjs` prints the contract as a spreadsheet.

**The Java source locator.** `Main.java` turns lines and columns into offsets and slices, writes JSON
string literals, reads its locator file, and picks one overload by its erased parameter types.

**Two tree walkers.** `ast-helper.py` encodes Python expressions down to a depth limit, lists a module's
mutations outside functions and classes and flattens function signatures; `oracle.py` flattens Django's
nested URL table.

Code that works step by step is modelled as methods and classes (`SchemaProjection.InlineSchema`,
`Emit.BuildContract`, `Validate.Wrapper`, `DjangoRoutes.RouteTable`, `PythonMutations.Walker`, the loops of
`JavaText`, `JavaJson` and `JavaMembers`), each proved equal to a function of its inputs or of the old state;
the theorems are about those functions. For each of the main operations some theorem tells the result without
them, in terms of the inputs alone (`EmittedRecords`, `EmittedLog`, `CsvCells`, and the lemmas called "told",
"exact" or "iff").

| file | content |
|---|---|
| `Prelude.dfy` | options, decimal numerals, separators, order-preserving filters |
| `JsonSchema.dfy` | JSON values, schemas, evaluation and compilation with `$ref`/`$defs` |
| `SchemaVerdicts.dfy` | which documents have a verdict on every value |
| `SchemaProjection.dfy`, `ProjectionMeaning.dfy` | the projection of a component graph; it keeps the meaning |
| `ProjectionProperties.dfy`, `ComponentCycles.dfy` | what a projection refers to, defines and refuses |
| `ResponseUnion.dfy` | the schema for all documented responses together |
| `ContractModel.dfy`, `WarningCodes.dfy` | the contract's entities; the table of warning codes |
| `RouteParams.dfy`, `Emit.dfy` | route parameters; the contract builder and its specification |
| `EmitProperties.dfy`, `FailClosed.dfy` | what every run keeps; what a useless reconciliation cannot change |
| `EmittedRecords.dfy`, `EmittedLog.dfy` | what an emitted operation says, and which warnings there are, told by scan and document alone |
| `Completeness.dfy` | verdicts, waivers, the clock |
| `Validate.dfy`, `EndToEnd.dfy` | payload schemas and envelopes; from a scan to the verdict on an envelope |
| `ReferringParameters.dfy` | emitted path parameters with references |
| `Csv.dfy`, `CsvExport.dfy`, `CsvCells.dfy` | the printer with the parser it inverts; the exported table; what its columns show |
| `JavaText.dfy`, `JavaJson.dfy`, `JavaMembers.dfy` | offsets and slices; string literals; overloads and locators |
| `JavaErasure.dfy` | the text erasure against the erasure of the language |
| `PythonAst.dfy`, `PythonMutations.dfy`, `PythonSignature.dfy` | the Python helper |
| `DjangoRoutes.dfy` | the Django route oracle |

## Findings

Where a promise holds only under a condition, the project proves the condition from both sides; the one
exception is marked.

- Inlining components and leaving `$ref` at cyclic edges accepts the same values as the component graph, for
  every graph (`ProjectionProperties.ProjectionKeepsMeaning`). It is refused iff something it leads to is
  missing or unsupported, or it leads to components that are nothing but references among themselves
  (`ComponentCycles.RefusedIff`), and `$defs` appear iff it leads to a component that leads back to itself
  (`ComponentCycles.InlinedWhollyIff`).
- That refusal (openapi.mjs:819-830, CATALOG.md:214) does not catch every cycle without a base. A recursive
  document decides every value iff no definition reaches itself through `$ref` and branch keywords alone
  (`SchemaVerdicts.DecidesAllIffGuarded`). A component whose `anyOf` leads straight back to it is projected to a
  schema whose references resolve and which has no verdict on any value
  (`ComponentCycles.UndecidedLoopIsProjected`; by itself `SchemaVerdicts.UnguardedCycleHasNoVerdict`).
- The refusal of `$defs` of one name with different content (openapi.mjs:1256-1269) cannot be reached: all
  responses of an operation come from one document (`ResponseUnion.ProjectResponses`).
- `hoistDefs` lifts the definitions of the body schema only, so a path parameter's references are resolved
  among those. Unless the request document leaves some value undecided, a request is refused for an
  uncompilable schema iff a reference does not resolve there, a schema is ill-formed, or the route names a
  parameter twice (`EndToEnd.EmittedUncompilableIff`); a recursive parameter of a body-less operation is one
  case (`ReferringParameters.RecursivePathParameterBreaksRequests`). A parameter that resolves there keeps the
  meaning that it has alone if the body and it define no name differently
  (`EndToEnd.ParameterKeepsItsMeaning`). Projections of one document never do
  (`EndToEnd.ProjectionsDoNotCollide`), so a collision needs a hand-edited contract or foreign input; the
  parameter can then be misjudged (`ReferringParameters.CollidingDefinitionMisleads`), but need not be, since
  different texts may mean the same: this condition goes one way only.
- `operations[operationId]` also sees names that every object inherits, so an endpoint with such an id is
  reported as a duplicate of an operation that does not exist: an id is recorded iff some endpoint asks for it
  and no object inherits it (`EmitProperties.FirstOccurrenceWins`, `EndToEnd.InheritedIdsAreLost`).
- The comment at contracts/completeness.mjs:145-147 says that blocking re-derives severities from the code
  table; the code reads the stamped value. The two evaluations agree iff every stamp is the table's, as in
  every emitted contract (`Completeness.StampAgreesWithTableIff`), and block alike under all waivers iff the
  error keys are the same (`Completeness.StampsBlockAlikeIff`, `Completeness.EditedStampHidesAnError`).
- An expired waiver cancels a running one under the same key: judging by the running waivers alone gives the
  same result iff no error warning has both (`Completeness.LiveWaiversDecideIff`). A renewed waiver whose
  expired entry is kept blocks (`Completeness.RenewalIsCancelled`).
- A bare `:name` is misread iff a word follows it directly, or a group around a later parameter
  (`RouteParams.ScanInvertsPrintingIff`): `:a` before `b` gives "ab" (`RouteParams.GluedNameIsMisread`), and
  `:a({b})` loses "b" (`RouteParams.GroupedNameIsLost`).
- The scan leaves a group at its first ')', so the names of a group that holds one are those of its rest
  (`RouteParams.ScanLongGroup`): `:id((a|b){3})` has a parameter "3" (`RouteParams.RepetitionIsReadAsAName`).
- A table reads back unchanged iff every row has a field (`Csv.CsvRoundTripIff`), and a security cell is blank
  iff nothing is declared or no requirement names a scheme (`CsvExport.BlankSecurityIff`).
- Main.java:435 calls several matching overloads impossible. They occur iff two overloads have the same text
  erasures (`JavaErasure.SeveralIsReachableIff`). The text erasure is that of the language iff a type is not of
  variable arity, has no type arguments inside an array and is no variable
  (`JavaErasure.TextErasureIsTrueIff`); among such types several matches are impossible
  (`JavaErasure.OverloadsAreUnique`). Beyond them, `m(List<String>)` and `m(List<String>[])` are both matched
  (`JavaErasure.SeveralOverloadsOfACompiledClass`), and so are `m(String)` and `m(String...)`, because the
  helper resolves the element type of a parameter of variable arity
  (`JavaErasure.VariableArityOverloadsOfACompiledClass`).

## Model

| member | source | states |
|---|---|---|
| `JsonSchema.VerdictIsUnique` | contracts/validate.mjs:66-74 | evaluation resolves `#/$defs/X` at the root of the compiled document (JSON Schema 2020-12 Core, sections 8.2.3.1 and 8.2.4); no document both accepts and rejects a value, whatever effort is spent |
| `JsonSchema.OnlyReachableDefs` | contracts/validate.mjs:66-74 | only definitions reachable from a schema matter: documents that agree on those evaluate it alike |
| `SchemaVerdicts.DecidesAllIffGuarded` | CATALOG.md:214 | a document whose references resolve accepts or rejects every value iff the definitions it reaches can be ranked so that a reference applied to the same value always goes down |
| `SchemaVerdicts.DefinitionsDecideIffGuarded` | CATALOG.md:214 | a closed set of definitions can be ranked like that iff each of them decides every value |
| `JsonSchema.SameDefinitionsSameMeaning` | contracts/validate.mjs:66-74 | a document keeps its meaning under foreign definitions that agree with its own on what it reaches |
| `SchemaVerdicts.UnguardedCycleHasNoVerdict` | CATALOG.md:214 | a definition whose `anyOf` leads straight back to itself compiles and decides no value |
| `JsonSchema.CompatibleMeansTheSame` | contracts/validate.mjs:66-74 | a schema whose references resolve in two tables that define no name differently means the same in both |
| `SchemaProjection.InlineSchema` | contracts/openapi.mjs:794-841 | the walk and the rounds over names without a definition end with the least set of definitions that the walk leads to, or refuse if one of these is not supported or holds nothing but a reference |
| `ProjectionProperties.ProjectionKeepsMeaning` | contracts/openapi.mjs:772-907 | for every component graph, the projected schema accepts a value iff the node does with its references resolved among the components, and decides the same values |
| `ProjectionProperties.ProjectionGuardedIff` | contracts/openapi.mjs:819-830 | the projected schema is guarded iff the node decides every value among the components |
| `ProjectionProperties.ProjectionResolves` | contracts/openapi.mjs:806-836 | every reference of a projected schema resolves among its definitions, and no definition could be left out |
| `ProjectionProperties.ProjectionsAreCompatible` | contracts/openapi.mjs:815-833 | two projections of one document define no name differently |
| `ComponentCycles.WalkSucceedsIff` | contracts/openapi.mjs:848-907 | the walk succeeds iff every component that the node leads to exists and is supported, on whichever path it is met |
| `ComponentCycles.RefusedIff` | contracts/openapi.mjs:806-841 | a schema is refused iff it leads to something missing or unsupported, or to components that are nothing but references among themselves |
| `ComponentCycles.InlinedWhollyIff` | contracts/openapi.mjs:784-790 | `$defs` are left out iff no component that the node leads to leads back to itself |
| `ComponentCycles.OnlyLoopsAreDefined` | contracts/openapi.mjs:873-888 | every definition is a component that the node leads to and that leads back to itself; every other one is inlined |
| `ComponentCycles.UndecidedLoopIsProjected` | contracts/openapi.mjs:819-830 | a component whose `anyOf` goes straight back to it is not refused, and its projection has no verdict on any value |
| `ResponseUnion.ProjectResponses` | contracts/openapi.mjs:1227-1272 | unresolved iff one of the schemas is refused; otherwise the different projections under one `anyOf` with their definitions merged, never refused for a collision |
| `ResponseUnion.UnionAcceptsIff` | contracts/openapi.mjs:1237-1272 | the joined schema accepts a value iff all documented schemas decide it and one of them accepts it among the components |
| `Validate.HoistDefs` | contracts/validate.mjs:75-80 | moves a schema's `$defs`, if it has them, to the wrapper and returns the rest; without them the wrapper is untouched |
| `Validate.OperationPayloadSchema` | contracts/validate.mjs:82-106 | builds the wrapper for each direction in place; nothing for an unprojected or unknown one |
| `Validate.HoistingKeepsMeaning` | contracts/validate.mjs:66-106 | for every schema, recursive definitions included, the response and error wrapper accepts v iff v is an object with exactly the key `body` and the schema alone accepts the body; likewise for rejecting |
| `Validate.HoistingKeepsCompilation` | contracts/validate.mjs:66-80 | the hoisted wrapper compiles iff the schema compiles alone |
| `Validate.UnhoistedCompilesIffRefFree` | contracts/validate.mjs:66-74 | with `$defs` left nested the wrapper compiles iff the schema is well formed and has no reference at all |
| `Validate.RequestWrapperIsExact` | contracts/validate.mjs:83-97 | for all schemas, a payload is accepted iff it has no other key than `pathParams` and `body`, its parameters are accepted with references resolved among the body's definitions, and its body is required, optional or forbidden as the contract says, and accepted by its own schema if present |
| `Validate.RequestWrapperCompilesIff` | contracts/validate.mjs:83-97 | the request wrapper compiles iff both schemas are well formed and the references of both resolve among the body's definitions; without a body there may be none |
| `Validate.SchemalessRequestVerdict` | contracts/validate.mjs:83-97 | for an operation without a projected body schema, a request is accepted iff the ids fit, the parameters' schema is well formed and without references and accepts the parameters, and the payload has no other keys and a body, required, possible or forbidden, that is any object |
| `Validate.ProjectedRequestVerdict` | contracts/validate.mjs:83-97 | with one, that schema judges the body and its definitions resolve the parameters' references, unless no body is possible |
| `Validate.ProblemsAreExact` | contracts/validate.mjs:113-158 | each id that differs and an operation that is not there have their own problem; an unknown direction constrains nothing |
| `Validate.UncompilableIsRefused` | contracts/validate.mjs:139-146 | a request whose schemas do not compile together is refused for that, whatever the compiler overflows on |
| `Validate.UncompilableIff` | contracts/validate.mjs:139-146 | unless the request document leaves some value undecided, where the compiler may overflow, a request is refused for an uncompilable schema iff that condition fails |
| `Validate.ValidateAgainstContract` | contracts/validate.mjs:113-158 | the problems of an envelope in order, with the two early returns; ok iff there is none |
| `Validate.RequestVerdict` | contracts/validate.mjs:113-158 | for every operation whose request document decides every value: a request is accepted iff it carries the contract's two ids, the operation's schemas compile together, and it has the payload that they ask for |
| `Validate.ResponseVerdict` | contracts/validate.mjs:113-158 | a response or error is accepted iff it carries the two ids and, where a schema was projected, that compiles and the payload is an object holding just a body that it accepts |
| `RouteParams.ScanInvertsPrintingIff` | contracts/emit.mjs:34-39 | scanning a printed route returns its parameter names in order iff no bare `:name` is followed by a word or by a group around a later parameter |
| `RouteParams.ScanFindsNoMore` | contracts/emit.mjs:39 | the scan never finds more names than were printed, misread routes included |
| `RouteParams.GluedNameIsMisread` | contracts/emit.mjs:39 | a bare name directly before a word is found as one longer name |
| `RouteParams.GroupedNameIsLost` | contracts/emit.mjs:39 | a parameter in a group behind a bare name is not found |
| `RouteParams.ScanLongGroup` | contracts/emit.mjs:39 | of a group that holds a ')', what follows the first one is scanned on its own for further names |
| `RouteParams.RepetitionIsReadAsAName` | contracts/emit.mjs:39 | a repetition count behind such a group is found as a parameter |
| `RouteParams.PathParamsSchema` | contracts/emit.mjs:38-58 | the loop builds the closed object schema over the scanned names; the heuristic list is exactly the unsourced names, absent iff there is none |
| `RouteParams.ParamsAreExact` | contracts/emit.mjs:42-55 | whatever its references resolve to, the schema accepts exactly the objects whose keys are the scanned names and whose entries fit their own schemas |
| `RouteParams.ParamsValidIff` | contracts/emit.mjs:42-55 | the same for verdicts: the object is decided and accepted iff every entry is |
| `RouteParams.UnsourcedParameterIff` | contracts/emit.mjs:51 | a name of the route without a document's schema takes a string, and one shaped like a UUID iff the name ends in "id" in any case |
| `RouteParams.SourcedParameterIs` | contracts/emit.mjs:43-47 | any other name of the route has the document's schema |
| `RouteParams.ScannedParametersIff` | contracts/emit.mjs:38-58 | a route that no document knows takes an object with exactly its names as keys and such strings as values |
| `RouteParams.ParamsWellFormedIff` | contracts/emit.mjs:55 | the schema is well formed iff no name repeats (JSON Schema Validation, section 6.5.3) and the sourced schemas used are |
| `RouteParams.ParamsRefsWithinIff` | contracts/emit.mjs:42-55 | the schema refers to nothing outside a set of names iff no sourced schema in use does |
| `Emit.EndpointKeyIsInjective` | contracts/emit.mjs:92-94 | two endpoints never share an entry of the reconciliation |
| `Emit.BuildContract` | contracts/emit.mjs:107-483 | the whole builder computes the fold of one step per endpoint, framed by the annotation, empty-contract and prefix warnings |
| `Emit.CollectEndpoints` | contracts/emit.mjs:130-131 | the nested loops visit every endpoint in (controller, endpoint) order |
| `Emit.ApplyResolution` | contracts/emit.mjs:135-277 | how each kind of reconciliation result changes an endpoint's address and which warning it leaves |
| `Emit.EmitEndpoint` | contracts/emit.mjs:130-429 | one pass of the loop body: ambiguous, unmatched and duplicate endpoints leave early, any other is recorded |
| `EmittedRecords.ModuleIsChosen` | contracts/emit.mjs:84-88 | the first module of the given name, or without a name the first one |
| `EmittedRecords.EndpointsAreTheScan` | contracts/emit.mjs:130-133 | each endpoint of that module is looked at in its place, with its controller's data and the reconciliation's entry under its own two positions |
| `EmittedRecords.RequestedIff` | contracts/emit.mjs:135-288 | an endpoint asks for the document's id if adopted and for its own otherwise, unless that is blank or the endpoint ambiguous |
| `EmittedRecords.OperationIsTold` | contracts/emit.mjs:145-429 | field by field, an emitted operation has the document's address, schemas, copied fields and parameter schemas if its first endpoint was matched or adopted, and else the scan's address and none of these; its body is known as the controller's source tells it and its expansion is the declaration at the endpoint's index |
| `EmittedRecords.HeadIsTold` | contracts/emit.mjs:463-482 | ids, source, security schemes and counts of the emitted contract |
| `EmittedLog.LogIsTold` | contracts/emit.mjs:119-455 | for each of the eighteen codes, the subjects of the emitted warnings with it, in order: from the scan and the reconciliation alone, which endpoint, keyword or prefix is warned about, and under which subject |
| `EmitProperties.EndpointsAreConserved` | contracts/emit.mjs:130-461 | in every run the endpoint count is the number of endpoints of the selected module and equals operations plus unmatched, duplicate and ambiguous warnings |
| `EmitProperties.FirstOccurrenceWins` | contracts/emit.mjs:279-297 | the recorded ids are exactly those some endpoint asks for and no object inherits; each record comes from the first such endpoint; every further request is one duplicate warning |
| `EmitProperties.ProvenanceIsHonest` | contracts/emit.mjs:135-277 | an operation with provenance `openapi` has the document's id and address, one with `scan+openapi` the scan's id at the document's address, any other the scan's own values and nothing from a document |
| `EmitProperties.EmittedRecordsAreConsistent` | contracts/emit.mjs:390-427 | in every emitted operation: whether a body is required is said iff its schema is known, the parameters are those of its own path, a heuristic name is one of them, no blank text is copied, and the parameter schema has no definitions of its own |
| `EmitProperties.UnresolvedReportsAreExact` | contracts/emit.mjs:298-387 | for each of the seven codes about schemas and copied fields and every id: reported once under that id iff it is an operation whose first endpoint's reconciliation gave the reason, else never |
| `EmitProperties.UnknownBodiesAreReported` | contracts/emit.mjs:298-310 | the unknown-body warnings are as many as the operations whose body is unknown |
| `EmitProperties.CompleteMeansComplete` | contracts/emit.mjs:457-461 | `complete` iff there is an operation, every endpoint became one, none was drift, missing or an unresolved synthesized id, and every path is under every prefix |
| `EmitProperties.BlockedMeansEmpty` | contracts/emit.mjs:435-461 | `blocked` iff the empty-contract warning is present; re-deriving severities from the table changes no evaluation of an emitted contract |
| `EmitProperties.StepEffect` | contracts/emit.mjs:130-429 | what one endpoint does to the operations, the counts and the error warnings, in every branch |
| `EmitProperties.StatusFacts` | contracts/emit.mjs:107-461 | the emitted log has an error iff something named in the list went wrong, and every warning carries the severity of the table |
| `FailClosed.RefusalsChangeNoOperation` | contracts/emit.mjs:133-277 | if a reconciliation yields only drift, missing and unresolved results, the operations are those of the run without it |
| `FailClosed.EmptyReconciliationIsInvisible` | contracts/emit.mjs:103-107 | an empty reconciliation gives the same contract but for the provenance of its source |
| `EndToEnd.VerdictIsLocal` | contracts/validate.mjs:113-158 | the verdict on an emitted operation depends only on the feature ids and the first endpoint that asked for its id |
| `EndToEnd.LaterEndpointsDoNotMatter` | contracts/emit.mjs:289-297 | appending endpoints to a scan never changes the verdict on an operation it already had |
| `EndToEnd.InheritedIdsAreLost` | contracts/emit.mjs:289-297 | an id that every object inherits is never recorded and each request for it is a duplicate warning |
| `EndToEnd.ScanOnlyRequestVerdict` | contracts/emit.mjs:38-58 | a request for an endpoint that no document knows is accepted iff the ids fit, the route repeats no name, and the payload has a string for each name, shaped like a UUID where the name ends in "id", and a body, as the controller's source says, that is any object |
| `EndToEnd.EmittedResponseVerdict` | contracts/emit.mjs:410-411 | a response or error for an emitted operation is judged by the schema that the document of its first endpoint gives for that direction, and by nothing if there is none |
| `EndToEnd.EmittedRequestVerdict` | contracts/emit.mjs:38-58 | from scan to verdict, sourced schemas with references included: a request is accepted iff it carries the feature's ids, the schemas compile together, and it has a fitting value for exactly the route's parameters and a body as the scan knows it |
| `EndToEnd.ParameterKeepsItsMeaning` | contracts/validate.mjs:75-97 | if the operation's schemas compile together, a parameter's schema compiles alone and defines no name differently from the body's, then the parameter is judged as by its schema alone |
| `EndToEnd.ProjectionsDoNotCollide` | contracts/openapi.mjs:815-833 | that is so whenever the operation's schemas are projections of one document |
| `EndToEnd.EmittedRequestJudgedByParts` | contracts/validate.mjs:113-158 | then an emitted operation's request is accepted iff ids fit, the schemas compile together, and each parameter and the body fit their own schema |
| `EndToEnd.EmittedUncompilableIff` | contracts/validate.mjs:139-146 | unless the request document leaves some value undecided, a request is refused for an uncompilable schema iff the route repeats a parameter, a schema used is ill-formed, or a reference of the body's or a parameter's schema does not resolve among the body's definitions |
| `EndToEnd.RepeatedParameterRefusesRequests` | contracts/emit.mjs:55 | a route that names one parameter twice refuses every request |
| `EndToEnd.ReferringParameterRefusesRequests` | contracts/validate.mjs:84-97 | without a body, a parameter whose sourced schema has any reference refuses every request |
| `ReferringParameters.RecursivePathParameterBreaksRequests` | contracts/emit.mjs:44-46 | a matched endpoint whose parameter has a recursive schema, which compiles and decides every value alone, is emitted as an operation that refuses every request |
| `ReferringParameters.NodesAreProjected` | contracts/openapi.mjs:873-907 | that schema is what the projection makes of a component that is a list of itself |
| `ReferringParameters.CollidingDefinitionMisleads` | contracts/validate.mjs:75-97 | if parameter and body define one name differently, the wrapper compiles, rejects what the parameter's schema accepts and accepts what it rejects |
| `WarningCodes.TableIsProper` | contracts/completeness.mjs:31-127 | the names of the table are pairwise different and hold no colon |
| `Completeness.KeysAreExact` | contracts/completeness.mjs:156-158 | keys are equal iff the codes are and the subjects are, an absent one being '*' |
| `Completeness.AlikeIff` | contracts/completeness.mjs:156-158 | under one code, two keys are equal iff the subjects are the same or both absent or written "*" |
| `Completeness.WaivedKeysAreTheCovered` | contracts/completeness.mjs:243-245 | a key is waived iff some waiver has it and none with it has expired |
| `Completeness.WaiversPartitionErrors` | contracts/completeness.mjs:247-249 | waived and unwaived split the error warnings in their own order, by being covered |
| `Completeness.BlocksIff` | contracts/completeness.mjs:239-257 | a contract blocks iff it has no operation or an uncovered error warning |
| `Completeness.BlockingIsMonotone` | contracts/completeness.mjs:235-257 | for a fixed contract and resolution, what blocks now blocks at every later time |
| `Completeness.LiveWaiversDecideIff` | contracts/completeness.mjs:243-245 | dropping the expired waivers keeps the unwaived list iff no error warning has both an expired and a running waiver |
| `Completeness.RenewalIsCancelled` | contracts/completeness.mjs:243-245 | an error warning with an expired and a renewed waiver blocks; with the renewed one alone it does not |
| `Completeness.OneWaiverPerKey` | contracts/completeness.mjs:239-257 | with at most one waiver per key the result is that of the running waivers alone |
| `Completeness.AddingAWaiverIsExact` | contracts/completeness.mjs:239-257 | a running waiver under a fresh key moves exactly the error warnings with its code and subject, merged into the waived ones in order, and never unblocks a contract without operations |
| `Completeness.StaleAndExpiredAreExact` | contracts/completeness.mjs:239-252 | a waiver is stale iff no error warning has its key and expired iff its time is not later than now; both lists are in file order and leave exactly the others aside |
| `Completeness.AddingToTheLists` | contracts/completeness.mjs:239-252 | an added waiver goes to the end of the two lists that it belongs to and changes nothing else in them |
| `Completeness.StatusIff` | contracts/completeness.mjs:239-257 | blocked iff there is no operation, complete iff there is one and no error warning |
| `Completeness.StampAgreesWithTableIff` | contracts/completeness.mjs:144-151 | whatever the waivers and the time, evaluating the stamped severities and evaluating the table's agree iff every stamp is the table's |
| `Completeness.StampsBlockAlikeIff` | contracts/completeness.mjs:145-147 | the two block alike under all waivers iff there is no operation or, key by key, a warning is stamped as an error exactly where one is an error by the table |
| `Completeness.EditedStampHidesAnError` | contracts/completeness.mjs:144-151 | an edited stamp makes the two differ |
| `Csv.CsvReadsBack` | contracts/csv.mjs:50-66 | whatever the fields hold, parsing the printed table by RFC 4180 section 2 returns header and rows, an empty row coming back as one blank field |
| `Csv.CsvRoundTripIff` | contracts/csv.mjs:63-66 | the table comes back unchanged iff header and every row have a field |
| `Csv.ToCsvIsInjective` | contracts/csv.mjs:63-66 | on such tables different inputs print differently |
| `Csv.QuotedIffSpecial` | contracts/csv.mjs:50-56 | a field is changed iff it holds a quote, comma, carriage return or line feed, and is then quoted |
| `CsvExport.ExtractSecurity` | contracts/csv.mjs:36-44 | the nested loops collect each scheme name once; absent and empty lists print differently |
| `CsvExport.BlankSecurityIff` | contracts/csv.mjs:36-44 | the cell is blank iff nothing is declared or no requirement names a scheme |
| `CsvExport.ExportShowsEveryOperation` | contracts/csv.mjs:73-100 | refused iff there is no operation; otherwise the parsed text has the header and one row per operation in the order of the sorted ids, each holding that operation's cells |
| `CsvCells.ExportReadsAs` | contracts/csv.mjs:11-26 | read back, the export has the fourteen names as its first line and, for each operation in the order of the sorted ids, a line that shows its values under the names they belong to |
| `CsvCells.CoverageIsExact` | contracts/csv.mjs:84-91 | rows and, column by column, rows that are not blank are counted; the columns reported as empty are those with none |
| `CsvExport.TextDeterminesOperations` | contracts/csv.mjs:11-26 | with the fourteen columns in use, equal texts come from contracts with the same ids and, for each, the same verb, path, body knowledge, provenance and other cells |
| `CsvExport.EmptyColumnIff` | contracts/csv.mjs:84-91 | a column is reported as empty iff no operation shows anything in it |
| `CsvExport.ContractColumnEmptyIff` | contracts/csv.mjs:84-91 | the same for each of the fourteen columns in use |
| `JavaText.LineColToIndex` | handles/providers/java-spring/ast-helper/src/main/java/com/backendskeleton/asthelper/Main.java:282-292 | the loop computes the start of the line plus the column, or fails |
| `JavaText.OffsetInvertsPosition` | handles/providers/java-spring/ast-helper/src/main/java/com/backendskeleton/asthelper/Main.java:282-292 | converting back the line and column of an offset returns the offset, for every text and offset |
| `JavaText.PositionsAreMonotone` | handles/providers/java-spring/ast-helper/src/main/java/com/backendskeleton/asthelper/Main.java:282-292 | offsets are ordered like their lines and columns |
| `JavaText.FailsIffNoSuchLine` | handles/providers/java-spring/ast-helper/src/main/java/com/backendskeleton/asthelper/Main.java:282-292 | the conversion fails iff the text has no such line |
| `JavaText.SlicesAreContiguous` | handles/providers/java-spring/ast-helper/src/main/java/com/backendskeleton/asthelper/Main.java:276-280 | signature and region slice side by side are the declaration |
| `JavaText.SignatureSlice` | handles/providers/java-spring/ast-helper/src/main/java/com/backendskeleton/asthelper/Main.java:529-533 | the signature ends just before the region, or shares its first character when the region starts a line |
| `JavaJson.JsonString` | handles/providers/java-spring/ast-helper/src/main/java/com/backendskeleton/asthelper/Main.java:183-204 | the loop appends the escape of every code unit between two quotes |
| `JavaJson.JsonStringReadsBack` | handles/providers/java-spring/ast-helper/src/main/java/com/backendskeleton/asthelper/Main.java:183-204 | decoding the literal by RFC 8259 section 7 returns the string, for every string of 16-bit units |
| `JavaJson.NoControlCharacter` | handles/providers/java-spring/ast-helper/src/main/java/com/backendskeleton/asthelper/Main.java:194-200 | the literal has no raw character below 0x20 |
| `JavaJson.NoInnerQuote` | handles/providers/java-spring/ast-helper/src/main/java/com/backendskeleton/asthelper/Main.java:187-189 | no proper prefix of the literal reads as a literal, so none of its inner quotes is unescaped |
| `JavaMembers.EraseGenericsIs` | handles/providers/java-spring/ast-helper/src/main/java/com/backendskeleton/asthelper/Main.java:340-344 | erasure drops exactly what follows the first '<', with it |
| `JavaMembers.MatchesRequest` | handles/providers/java-spring/ast-helper/src/main/java/com/backendskeleton/asthelper/Main.java:382-409 | one candidate matches iff it has as many parameters, all resolved, all equal after erasure |
| `JavaMembers.SelectMethod` | handles/providers/java-spring/ast-helper/src/main/java/com/backendskeleton/asthelper/Main.java:366-437 | the collecting and the counting loop compute the selection or the kind of refusal |
| `JavaMembers.SelectedIff` | handles/providers/java-spring/ast-helper/src/main/java/com/backendskeleton/asthelper/Main.java:378-437 | a method is selected iff it is the only member with the requested name and erased parameters |
| `JavaMembers.MatchesIffAskedFor` | handles/providers/java-spring/ast-helper/src/main/java/com/backendskeleton/asthelper/Main.java:382-409 | a method matches iff it has as many parameters as asked for, each of a known type whose description, up to its first '<', is what is asked for |
| `JavaMembers.RefusalsAreExact` | handles/providers/java-spring/ast-helper/src/main/java/com/backendskeleton/asthelper/Main.java:373-437 | each of the four refusals, with the count it names, iff so many members have the name and so many of them match |
| `JavaMembers.SelectionIgnoresOrder` | handles/providers/java-spring/ast-helper/src/main/java/com/backendskeleton/asthelper/Main.java:366-437 | any permutation of the members gives the same selection or refusal |
| `JavaErasure.TextErasureIsTrueIff` | handles/providers/java-spring/ast-helper/src/main/java/com/backendskeleton/asthelper/Main.java:340-344 | cutting a described type at its first '<' is the erasure of the language iff the parameter is not of variable arity, no type arguments sit inside an array and no variable is described by another name than its bound's |
| `JavaErasure.SeveralIsReachableIff` | handles/providers/java-spring/ast-helper/src/main/java/com/backendskeleton/asthelper/Main.java:434-437 | some request is refused for matching several overloads iff two resolved members of that name have the same text erasures |
| `JavaErasure.OverloadsAreUnique` | handles/providers/java-spring/ast-helper/src/main/java/com/backendskeleton/asthelper/Main.java:206-212 | in a class that compiles that cannot happen among methods whose types erase exactly |
| `JavaErasure.SeveralOverloadsOfACompiledClass` | handles/providers/java-spring/ast-helper/src/main/java/com/backendskeleton/asthelper/Main.java:434-437 | it can for a method on a generic class and one on arrays of it |
| `JavaErasure.VariableArityOverloadsOfACompiledClass` | handles/providers/java-spring/ast-helper/src/main/java/com/backendskeleton/asthelper/Main.java:386-388 | it can for a method on one element and one on any number of them |
| `JavaMembers.LocatedTextIsTheDeclaration` | handles/providers/java-spring/ast-helper/src/main/java/com/backendskeleton/asthelper/Main.java:439-448 | what is located is the matching method with a body, and its two texts are its declaration in the file |
| `JavaMembers.ReadLocatorLines` | handles/providers/java-spring/ast-helper/src/main/java/com/backendskeleton/asthelper/Main.java:322-338 | the moving index reads what the line grammar says, or fails |
| `JavaMembers.ReadLocatorsInverts` | handles/providers/java-spring/ast-helper/src/main/java/com/backendskeleton/asthelper/Main.java:306-338 | reading a written locator list returns it |
| `PythonAst.EncodingRefinesFull` | scanners/language/python/ast-helper.py:59-90 | at every path down to level 12 the encoding and the unlimited one agree; a present node at level 13 is a depth-limit leaf naming it, an absent one stays missing; nothing lies deeper |
| `PythonAst.FullFollowsTheTree` | scanners/language/python/ast-helper.py:59-90 | the unlimited encoding has one fact for each slot of the expression tree, at the same path |
| `PythonAst.LimitIsInvisibleIffShallow` | scanners/language/python/ast-helper.py:59-63 | the two encodings are equal iff no node lies below level 12 |
| `PythonAst.DottedNameIsOneSymbol` | scanners/language/python/ast-helper.py:31-37 | a dotted name of any length is one symbol, its parts joined by dots |
| `PythonAst.SymbolsAreDottedNames` | scanners/language/python/ast-helper.py:31-37 | nothing else is encoded as a symbol |
| `PythonAst.IntegersSurvive` | scanners/language/python/ast-helper.py:40-56 | an integer is a plain constant iff it is within 2^53 - 1, and otherwise its printed digits denote it |
| `PythonAst.SignedLiteral` | scanners/language/python/ast-helper.py:87-89 | a signed integer literal is encoded like the integer it denotes, at any level; a signed boolean is not |
| `PythonAst.ElementsEncodeAs` | scanners/language/python/ast-helper.py:69-70 | a list, tuple or set holds its elements in order |
| `PythonAst.DictEncodesAs` | scanners/language/python/ast-helper.py:71-74 | a dictionary holds key and value of each entry side by side, a missing key as missing |
| `PythonAst.CallEncodesAs` | scanners/language/python/ast-helper.py:75-82 | a call holds its function, its arguments and its keywords' values, under their names |
| `PythonAst.OperatorsEncodeAs` | scanners/language/python/ast-helper.py:83-86 | a subscript holds base and index, a union its two sides; any other operator is only named |
| `PythonAst.ConstantsEncodeAs` | scanners/language/python/ast-helper.py:40-56 | what becomes of each kind of constant |
| `PythonAst.OthersEncodeAs` | scanners/language/python/ast-helper.py:87-90 | an attribute of no dotted name, a sign before no number and every other form are only named |
| `PythonAst.TooDeepIsNamed` | scanners/language/python/ast-helper.py:62-63 | below level 12 a node is named by its form and holds nothing |
| `PythonAst.SignedFloat` | scanners/language/python/ast-helper.py:87-89 | a signed float is encoded like the float it denotes |
| `PythonMutations.Walker.Walk` | scanners/language/python/ast-helper.py:145-162 | the recursive closure appends what the walk specification lists |
| `PythonMutations.WalkIsExact` | scanners/language/python/ast-helper.py:145-162 | the walk lists exactly the mutating nodes that no function, class or lambda separates from the start, each once, in document order |
| `PythonMutations.Analyze` | scanners/language/python/ast-helper.py:240-272 | the loop over the module fills the assignment, augmented-assignment, call and control-flow lists |
| `PythonMutations.ListsAreByKind` | scanners/language/python/ast-helper.py:248-259 | each kind of top-level statement goes to its own list and what control flow holds to the fourth, each list in document order |
| `PythonMutations.AnalysisIsCompleteIff` | scanners/language/python/ast-helper.py:240-272 | nothing behind a function, class or lambda is listed; every other mutation is, iff the statements not looked into hold none |
| `PythonMutations.NothingIsListedTwice` | scanners/language/python/ast-helper.py:240-272 | the four lists together repeat no statement |
| `PythonSignature.Function` | scanners/language/python/ast-helper.py:165-190 | the loop tags, pads and encodes the arguments in the order of the signature |
| `PythonSignature.SignatureReadsBackIff` | scanners/language/python/ast-helper.py:165-190 | reading the records back gives the signature with its annotations and defaults encoded (names, roles, which of them are missing, the facts of the others) iff its defaults fit its parameters, as the parser guarantees |
| `PythonSignature.DefaultsAlignRight` | scanners/language/python/ast-helper.py:165-177 | the record of each positional parameter has its name, its encoded annotation and, counted from the right, its encoded default or none |
| `DjangoRoutes.WithinIffSegmentPrefix` | adapters/http-wave-a/python-scope/oracle.py:31-33 | a module counts as inside another iff the other's dotted segments begin its own |
| `DjangoRoutes.DjangoGroupIff` | adapters/http-wave-a/python-scope/oracle.py:21-33 | Django's owned modules are disjoint, so the group found does not depend on the order in which they are tried |
| `DjangoRoutes.RouteTable.Walk` | adapters/http-wave-a/python-scope/oracle.py:128-145 | the recursive walk, handing down prefix, regex flag and owner, records every chain of patterns from the root to a leaf, each judged on its own |
| `DjangoRoutes.ChainsAreTheLeaves` | adapters/http-wave-a/python-scope/oracle.py:128-134 | the chains are exactly the ways down the table to a leaf, as many as there are leaves |
| `DjangoRoutes.FlatteningConservesLeaves` | adapters/http-wave-a/python-scope/oracle.py:128-148 | rows and groups hold the leaves in document order, each in one place; rows plus group counts are the number of leaves |
| `DjangoRoutes.DjangoConservesLeaves` | adapters/http-wave-a/python-scope/oracle.py:123-148 | the same count for Django's own list of modules, without condition |
| `DjangoRoutes.DjangoTableIsTold` | adapters/http-wave-a/python-scope/oracle.py:123-148 | each leaf of the project's own has a row with "/" and the texts on the way, its name, view and actions, and each leaf of the four framework modules its path in that module's group, in document order |
| `DjangoRoutes.RowIff` | adapters/http-wave-a/python-scope/oracle.py:132-139 | a leaf is a row iff no table around it is admin's and its module is inside no owned one |

## Left out

- Input and output: reading sources, contract and resolution files, writing and locking them, command lines, child processes, base64 and encoding detection. Whether a handler takes a request body is an abstract function of file and handler name; the clock is a parameter.
- Ajv, JavaParser, the symbol solver, Python's parser and the web frameworks: schemas are judged by the evaluator here, and `Validate.Faithful` says what is taken for granted about the compiler; resolved types and trees are inputs.
- Reconciliation in `contracts/openapi.mjs` (indexing a document, matching endpoints, parameters, security, media types) and the normalising of prefix signals (`contracts/export.mjs:499-511`) are inputs; so is the set of names that objects inherit.
- Of the projection: the budgets for depth and nodes, documentation keywords, `default` and `discriminator`, and the choice of responses by status and media type. Which keywords, names and patterns are supported is a parameter.
- ProjectionProperties.ProjectionKeepsMeaning: reads `format: uuid` and `uuid4` as the pattern they are rewritten to (contracts/openapi.mjs:927-928); a validator that takes formats as annotations would accept more by the component.
- Messages and details of warnings and problems, the schema version, and the order of keys in the operations object.
- The `waivable` flags, `countByCode`, `loadResolution` and `saveResolution`; warnings whose code is not in the table, which only a hand-edited contract can hold.
- The structural check of an envelope that precedes `validateAgainstContract`.
- References other than `#/$defs/X`, `$defs` that hold further documents, and assertion keywords on scalars, which are opaque predicates; numbers are integers.
- A route parameter named `__proto__`, which JavaScript would not store as a property of the schema.
- Strings outside the Java part are sequences of Dafny characters, not of UTF-16 code units; `localeCompare` is any sorting that lists each id once.
- 32-bit overflow of Java offsets, lines and columns; lines that end in CR alone.
- `appendFieldLocateResult`, `runParse` and the type lookup before the overload loop: the same slices for fields, and listing.
- Line and column spans, targets and annotations of Python facts, imports and class facts; a node is known by its address. Negative zero among floats.
- PythonMutations.AnalysisIsCompleteIff: is about mutations that no function, class or lambda shields; class bodies, which Python executes on import and `class_fact` reads separately, are not modelled, and whether a branch is taken is not asked.
- EndToEnd.ParameterKeepsItsMeaning: goes one way; when definitions with different texts mean the same is a question of schema equivalence that no guard of the code decides.
- JavaErasure.TextErasureIsTrueIff: is about types as the solver describes them; how it describes a member of a parameterised type is not modelled.
- The Flask, FastAPI, Starlette and Litestar rows of the oracle: the same flattening with a prefix only. The order in which Django's groups, paths and viewset actions are sorted for printing.
- JavaMembers.LocatedTextIsTheDeclaration: assumes that a declaration starts no later than its body and ends inside the file, as the parser's ranges do.
- JavaText.SlicesAreContiguous: is about texts whose lines end in LF, where the parser's lines and columns count as modelled.
