# Verified model of Lathe

Lathe compiles API specifications into command-line programs. This project models the parts of it that are
algorithms or protocols with hard laws, and proves those laws for all inputs, all runs or all reachable states:

* **Request schemas** (`RawSchemas`, `SchemaCompiler`, `SchemaMeaning`, `StaticDocuments`, `PreflightSoundness`,
  `SchemaKeywords`, `SchemaReadings`, `SchemaJson`; `MultipartFields`, `MultipartLaws`, `MultipartMeaning`): unfolding
  possibly cyclic references keeps the meaning of every keyword, and relaxing read-only properties and stripping a
  schema to the keywords the preflight checks never makes the preflight reject a valid body.
* **Workflows** (`WorkflowChecker`, `WorkflowBuild`, `OperationLookup`; `WorkflowExpressions`, `WorkflowText`,
  `WorkflowRuns`, `WorkflowSteps`, `WorkflowTheorems`, `WorkflowSkips`, `WorkflowOrder`): the static checker, the
  interpreter and the run loop with skip, pause and fail; what the checker accepts does not go wrong.
* **The shared host file** (`HostStore`, `HostProtocol`, `HostRegisters`, `HostNames`): unlocked reads, remote calls
  and locked read-modify-write sequences of any number of processes, interleaved step by step.
* **Documents and streams** (`Documents`, `PathLaws`, `BodySets`, `Envelope`, `BodyLaws`; `EventStream`,
  `EventStreamReader`, `EventStreamPrinter`, `NewlineJson`, `StreamCollect`, `StreamTheorems`, `StreamFields`,
  `StreamConflicts`): in-place get and set on JSON paths with array padding, the event stream reader against sections
  9.2.5 and 9.2.6 of the WHATWG HTML Living Standard, and reducers folded over events until a terminal one.
* **Names** (`SuffixSearch`, `CommandUses`, `DashForms`, `ParamFlags`, `SensitiveParams`, `FlagBindings`,
  `FlagMeaning`, `FlagSoundness`; `CommandPaths`, `Shortcuts`, `CommandMounts`): searches for free names, and why what
  the generator produces is what the runtime accepts.
* **Printers** (`Urls`, `QueryStrings`, `QueryRoundTrip`; `Currency`, `CurrencyLaws`): query strings (section 2.1 of
  RFC 3986, OpenAPI 3.0.3 "Style Values") and exact decimal amounts, both read back.
* **Pagination** (`QueryRewrite`, `Pagination`, `PaginationTheorems`): the page loop agrees with reading the whole
  list.
* **GraphQL selections** (`Selections`, `SelectionLaws`): generated selection sets are valid in the sense of section
  5.3.3 of the GraphQL specification of October 2021.

`Text`, `Decimal`, `Occurrences` and `Wrappers` hold the string functions, decimal numerals, lists without repetitions
and result types that the others share.
Code that changes things in place is a method over an object, an array or loop variables, proved equal to a function of
what it was given; the laws are lemmas about those functions. Map iteration order is arbitrary: a choice from the keys
that are left, or any permutation.

The whole project is checked by `dafny verify dfyconfig.toml`.

## What the proofs found

Some laws one would expect are false of the code, each shown by a lemma with an input or an exact condition:

* an accepted workflow parameter `${steps.a}}` goes wrong, because the checker reads a reference up to its first brace
  and the evaluator up to its last (`ExtraBraceGoesWrong`, `AcceptedValueGoesWrongIff`);
* the order in which a Go map is visited decides whether a step is skipped or fails, exactly when its parameters hold
  both a reference to a skipped step and one that fails otherwise (`ParameterOrderDecides`); an accepted workflow does
  either (`AcceptedWorkflowDependsOnOrder`);
* a set at the empty path is not read back (`ReadBack`);
* recursive request types are not checked below their second occurrence on a path (`CyclicSchemaWidens`); for the
  keywords that are compiled nothing else is missing (`AcceptanceIsPreflightAndCuts`);
* a multipart reference that comes up again beside itself is taken for a cycle, and nothing else that unfolds is
  (`SiblingTakenForCycle`, `LostIffBesideItself`);
* stream targets that do not overlap still disturb each other, for two reasons and no other: array padding that comes
  before a field's own first value (`PaddingRejects`), and one target that needs an object where another needs an
  array (`MemberAgainstElement`); `CollectsIff` says when a stream is rejected, `LawHoldsIff` when every field means
  what it should;
* pipe-delimited arrays with a pipe in a value, and comma-separated ones that keep reserved characters with a comma in
  a value, are read back in pieces (`ReadJoined`, `ReadBackIff`);
* normalising a host name is not idempotent, and a host stored under such a name is lost on the next load
  (`NormalizeIdempotentIff`, `UnstableNameIsLost`, `TwoSchemesLost`);
* a NUL in a group name makes `disambiguateUse` rename a command that had no namesake (`NulInGroupClashes`);
* a suffixed flag of a sensitive parameter can be another parameter's flag, and the validator then rejects what the
  generator produced (`SensitiveSuffixClashes`; `DistinctAcceptedIff` and `AcceptedIff` say exactly when);
* a compiled `additionalProperties` with a schema loses its permission in the JSON, and nothing else of a compiled
  schema is lost there (`RoundTripIff`);
* merged pages without any item hold `null`, not an empty list (`MergedHoldsListIff`).

## Model

| member | source | states |
|---|---|---|
| PreflightSoundness.PreflightNeverRejectsValidBody | pkg/runtime/static_schema.go:66-119 | Every JSON value that a raw request schema accepts (references as a greatest fixpoint over any finite, possibly cyclic table, strings of a 64-bit integer format sent as strings or numbers at every depth, any meaning of the keywords the preflight drops) is accepted by the document that the rewriting makes of the compiled schema |
| PreflightSoundness.AcceptanceIsPreflightAndCuts | pkg/runtime/static_schema.go:66-119 | On every schema that reaches only compiled keywords, cyclic or not and with any formats, the source schema accepts exactly the bodies that the preflight accepts and whose parts at cut references are accepted by the targets of those references |
| PreflightSoundness.PreflightDecidesAcceptance | pkg/runtime/static_schema.go:66-119 | Acceptance is the same in both directions whenever the schema, with what it reaches, cuts no reference and uses only compiled keywords; definitions it does not reach are free |
| PreflightSoundness.AcyclicNeverCuts | internal/codegen/normalize/schema.go:14-48 | Where the references that a schema reaches can be ranked, no unfolding is ever cut, so the equivalence applies to every acyclic schema |
| PreflightSoundness.CyclicSchemaWidens | internal/codegen/normalize/schema.go:14-20 | A body that a recursive type rejects passes the preflight once the type occurs a second time on a path: the equivalence fails on cyclic schemas |
| StaticDocuments.StaticDocumentMeaning | pkg/runtime/static_schema.go:66-119 | Dropping keywords, wrapping nullables and widening 64-bit strings keep exactly the acceptance of the compiled schema |
| StaticDocuments.StaticBodySchemaDocument | pkg/runtime/static_schema.go:66-119 | The in-place rewriting of a document and its children equals the function of the document it was given |
| StaticDocuments.UniqueRequired | pkg/runtime/static_schema.go:89-99 | The loop with its seen set leaves the list that UniqueStringsInOrder speaks of |
| StaticDocuments.UniqueStringsInOrder | pkg/runtime/static_schema.go:89-99 | That list has every string element of the required list once, in the order in which they first stand there, and nothing else |
| SchemaMeaning.AcceptsIsFixpoint | internal/codegen/normalize/schema.go:10-61 | The reading of a raw schema is a fixpoint of its keywords, with references unfolded |
| SchemaMeaning.AcceptsIsGreatest | internal/codegen/normalize/schema.go:10-61 | The reading of a raw schema contains every relation that respects its keywords, so it is the greatest such fixpoint |
| SchemaCompiler.RuntimeSchema | internal/codegen/normalize/schema.go:10-61 | Unfolding terminates on every finite table by the measure (references not on the path, schema), and only a nil schema compiles to nil; what it compiles to is what KeepsKeywords speaks of |
| SchemaKeywords.KeepsKeywords | internal/codegen/normalize/schema.go:10-61 | For requests and for responses, on every schema and table: where the references left in place are read as the source reads their targets, the compiled schema, read with all of its keywords (type, format, enum, nullable, properties, required, additionalProperties, items, anyOf, oneOf, allOf) and relaxed by any names, accepts exactly what any reading that respects the keywords of the source accepts with those names exempt |
| SchemaKeywords.PreflightAcceptsReading | pkg/runtime/static_schema.go:66-119 | A body that a request schema accepts under any reading of all its keywords, oneOf included, passes the preflight |
| SchemaKeywords.AcyclicLeavesNone | internal/codegen/normalize/schema.go:14-20 | Where the references can be ranked through every keyword, only those without a definition are left in place |
| SchemaReadings.GuardedHasReading | internal/codegen/normalize/schema.go:10-61 | Readings of all keywords exist: there is one whenever every reference cycle of the table enters a property, an item or an additional property |
| SchemaReadings.GuardedHasOneReading | internal/codegen/normalize/schema.go:10-61 | For such tables it is the only one |
| SchemaJson.RoundTripIff | pkg/runtime/spec.go:113-162 | A compiled schema comes back from its JSON, every keyword included, exactly when no additionalProperties in it has both a schema and the permission that the schema replaces |
| SchemaCompiler.UnfoldedOnce | internal/codegen/normalize/schema.go:14-20 | On no path down the unfolding is a reference unfolded twice, so a path unfolds at most as many as there are definitions, cyclic tables included |
| SchemaCompiler.CompactRequired | internal/codegen/normalize/schema.go:117-131 | The in-place compaction leaves, in the prefix it returns, the required names that are not read-only, in order |
| SchemaCompiler.RelaxTwice | internal/codegen/normalize/schema.go:117-131 | Relaxing for two sets of names one after the other is relaxing once for their union |
| RawSchemas.SchemaReadOnlyExact | internal/codegen/normalize/schema.go:96-115 | The depth-first search with a shared visited set answers reachability of a read-only mark through references and allOf exactly, cycles included |
| RawSchemas.ReadOnlyNamesExact | internal/codegen/normalize/schema.go:78-94 | The collected names are exactly the reachable read-only properties |
| MultipartFields.MultipartObjectFields | internal/codegen/normalize/params.go:151-206 | On every way out the shared set of references is exactly what it was on entry, and the fields are those of the unfolding for that set; the recursion terminates on cyclic tables |
| MultipartFields.Merge | internal/codegen/normalize/params.go:216-235 | The loops over properties and required names, in any order of the properties, build the merge that MergedMeans speaks of |
| MultipartLaws.MergedMeans | internal/codegen/normalize/params.go:216-235 | A merge has exactly the properties of both sides, those of the base winning, and requires what either side requires, each name once, in the order of first occurrence |
| MultipartMeaning.PlainFields | internal/codegen/normalize/params.go:199-212 | A schema without reference and allOf has fields exactly when it is an object without alternatives, typed so or untyped with properties or additionalProperties: those it declares |
| MultipartMeaning.AllOfFields | internal/codegen/normalize/params.go:179-198 | One with allOf has fields exactly when every member has, it has no alternatives and no other type: its own and theirs, composed in order |
| MultipartMeaning.ReferenceFields | internal/codegen/normalize/params.go:155-178 | A reference has fields exactly when it is not on the path, its target has them and so has what stands beside it: those of the target first |
| MultipartMeaning.MergedAllMeans | internal/codegen/normalize/params.go:190-197 | In such a composition a name is declared as its first declarer says, and required as soon as one part requires it |
| MultipartLaws.PathIrrelevant | internal/codegen/normalize/params.go:155-160 | An answer found with more references on the path is found, unchanged, with fewer |
| MultipartLaws.FoundIffUnfolds | internal/codegen/normalize/params.go:151-206 | On every schema and table, fields are found exactly when the references unfold finitely and none comes up again in the unfolding of what stands beside it, and they are the fields of that unfolding |
| MultipartLaws.LostIffBesideItself | internal/codegen/normalize/params.go:155-182 | On a schema that unfolds, the path set loses the fields exactly when a reference comes up again beside itself |
| MultipartLaws.SiblingTakenForCycle | internal/codegen/normalize/params.go:169-176 | A schema where that happens: a reference repeated among its own siblings is rejected although it unfolds |
| WorkflowTheorems.AcceptedWorkflowsDoNotGoWrong | internal/lathecmd/workflow.go:216-281 | For every accepted workflow, every input and every sequence of operation results, neither a step nor the output ends in an unknown step, an unknown reference or an unterminated one |
| WorkflowTheorems.OneBraceIsTidy | pkg/runtime/workflow_expression.go:148-154 | The condition of that theorem holds whenever no whole-expression reference contains a second closing brace |
| WorkflowExpressions.AcceptedValueGoesWrongIff | pkg/runtime/workflow_expression.go:148-183 | An accepted expression read as a value goes wrong exactly when it is one reference whose text up to its last brace names a step the checker does not know |
| WorkflowExpressions.ExtraBraceGoesWrong | pkg/runtime/workflow_expression.go:148-154 | The accepted expression ${steps.a}} ends in an unknown step: the checker reads to the first brace, the evaluator to the last |
| WorkflowExpressions.AcceptedTextIsSafe | pkg/runtime/workflow_expression.go:118-146 | An accepted expression read as text fails only on an unset input, a missing output path or a skipped step; in a condition only on a skipped step |
| WorkflowExpressions.EvaluateVisitsRefs | pkg/runtime/workflow_expression.go:118-146 | Evaluation succeeds exactly when every reference that the checker extracts contributes and the last one is closed; otherwise it reports the first that does not |
| WorkflowExpressions.EvalWorkflowString | pkg/runtime/workflow_expression.go:118-146 | The loop over the rest of the expression computes the evaluation of the parsed template, whose text ReferenceReplaced, LiteralStays and OpenReference determine |
| WorkflowText.ReferenceReplaced | pkg/runtime/workflow_expression.go:118-146 | Literal text, a reference and the rest evaluate to the literal text, what the trimmed reference stands for (its value as text, null for a skipped step in an output, nothing in a condition when it has no value) and the evaluation of the rest, or to the first failure |
| WorkflowText.LiteralStays | pkg/runtime/workflow_expression.go:118-125 | An expression that opens no reference evaluates to itself |
| WorkflowText.OpenReference | pkg/runtime/workflow_expression.go:126-133 | A reference left open stays as it is in a condition and is an error elsewhere |
| WorkflowText.ExpressionShapes | pkg/runtime/workflow_expression.go:118-146 | Every expression has one of these three shapes |
| WorkflowText.OwnTextComesBack | pkg/runtime/workflow_expression.go:118-146 | Where every reference contributes its own source text, the expression comes back unchanged |
| WorkflowText.SingleReferenceValue | pkg/runtime/workflow_expression.go:148-154 | Between blanks, a single reference is the JSON value it names |
| WorkflowText.MixedExpressionIsText | pkg/runtime/workflow_expression.go:148-154 | With text before its first reference, or with a second one, an expression is text |
| WorkflowText.StepValue | pkg/runtime/workflow_expression.go:156-183 | A step reference with a path: a skipped step before an unknown one, then the value at the path or its absence |
| WorkflowExpressions.OneBraceIsFirstRead | pkg/runtime/workflow_expression.go:148-154 | With one closing brace the whole-expression reference is the first reference the checker reads |
| WorkflowChecker.WorkflowRefs | internal/lathecmd/workflow.go:265-281 | The loop returns exactly the references of the expression, or fails exactly when one is not terminated |
| WorkflowChecker.ValidateWorkflowRefs | internal/lathecmd/workflow.go:240-263 | No problem is reported exactly when every reference is well formed and names a declared input or a known step |
| WorkflowText.ReferenceAccepted | internal/lathecmd/workflow.go:240-281 | Literal text, a reference and the rest are accepted exactly when the trimmed reference is and the rest is |
| WorkflowText.KnownNames | internal/lathecmd/workflow.go:240-263 | A reference to an input is accepted exactly when it is declared, one to a step, with or without a path, exactly when the step is known |
| WorkflowChecker.ValidateWorkflowStepRefs | internal/lathecmd/workflow.go:216-238 | A step passes exactly when all expressions in its conditions, parameters and body sets do |
| WorkflowBuild.CheckWorkflow | internal/lathecmd/workflow.go:52-78 | A workflow passes exactly when every step finds its operation, which returns no binary and has the parameters given, and refers only to inputs and earlier steps, and the output refers only to inputs and steps |
| WorkflowBuild.ValidateStepParams | internal/lathecmd/workflow.go:192-206 | The parameters of a step pass exactly when each is the name or the flag of a parameter of the operation |
| WorkflowBuild.UsableIff | internal/lathecmd/workflow.go:52-67 | A step can use its operation exactly when its key is not empty, all claims on it are of the operation that the first of them names, this one returns no binary, and whatever the step gives is the name or the flag of one of its parameters |
| WorkflowChecker.NormalizeSteps | pkg/config/workflow.go:150-184 | For any lower-casing, the in-place normalisation succeeds exactly on steps that have distinct, dot-free, non-empty ids, operations and conditions with a value, one of the two operators and values, and then leaves names trimmed and operators in lower case and all else as it was |
| WorkflowRuns.ExecuteWorkflow | pkg/runtime/workflow.go:115-202 | The run loop computes the fold of the step function, with skip, pause and failure |
| WorkflowSteps.StepMeans | pkg/runtime/workflow.go:123-186 | One step: its conditions, then its input, then its operation decide; it adds one result, and is skipped, fails with the state unchanged, or leaves the data of its operation as its output |
| WorkflowSteps.InputMeans | pkg/runtime/workflow_expression.go:58-92 | The operation gets the value of each parameter under its name and the assignments in order as path, equals sign and text; otherwise the step ends with the first error of parameters, body sets and string sets |
| WorkflowSteps.OutputMeans | pkg/runtime/workflow.go:187-202 | A paused workflow returns the data of its last step, one that ran to its end what its output expression names, or a summary when there is none or it reads a skipped step |
| WorkflowRuns.EvalWorkflowConditions | pkg/runtime/workflow_expression.go:41-56 | The loop computes what ConditionsHoldIff speaks of |
| WorkflowRuns.ConditionsHoldIff | pkg/runtime/workflow_expression.go:41-56 | The conditions hold exactly when each evaluates without an error and matches; otherwise the first that does not decides between its error and not running |
| WorkflowTheorems.RunShape | pkg/runtime/workflow.go:115-202 | Results list the processed steps once each in declaration order; executed and skipped ids are disjoint and together all processed ids; failed and paused occur only last; a run that did not end processed every step |
| WorkflowSkips.StepsThatRanReadNoSkippedStep | pkg/runtime/workflow_expression.go:41-92 | In every run, no reference in the conditions, parameters or body sets of a step that ran names a step skipped before it |
| WorkflowSkips.ReadingSkippedStepSkips | pkg/runtime/workflow_expression.go:58-92 | When the other references of a step resolve, reading a skipped step anywhere skips the step, in whatever order its parameters are visited |
| WorkflowOrder.OrderIrrelevantIff | pkg/runtime/workflow_expression.go:58-66 | All orders of the bindings give the same kind of outcome exactly when they do not hold both an expression that reads a skipped step and one that fails otherwise |
| WorkflowOrder.ParameterOrderDecides | pkg/runtime/workflow_expression.go:58-80 | The verdict on a step, down to the operation input, is the same for every order of its parameter map exactly unless its conditions match and its parameters hold both kinds of failure |
| WorkflowOrder.AcceptedWorkflowDependsOnOrder | pkg/runtime/workflow.go:129-160 | One accepted workflow runs to its end or fails, for one state and any operations, depending on which of two parameters is visited first |
| OperationLookup.Lookup.Add | internal/lathecmd/workflow.go:118-135 | The two maps go on agreeing with the list of claims: a key maps to its first claimant and is ambiguous exactly when claimants differ |
| OperationLookup.Lookup.Resolve | internal/lathecmd/workflow.go:137-147 | A reference resolves as the claims on its key say |
| OperationLookup.Lookup.AddOperation | internal/lathecmd/workflow.go:94-112 | An operation claims exactly the keys of every way to name it |
| OperationLookup.KeysMean | internal/lathecmd/workflow.go:94-112 | A key names an operation exactly when it is its id, alone or below a name of its module, or its group and use below one of these or, in a flat module, alone, with blanks or dots between |
| OperationLookup.ResolvesIff | internal/lathecmd/workflow.go:118-147 | A key resolves to an operation exactly when it is not empty and that operation, and no other, claims it |
| OperationLookup.ResolutionOrderIrrelevant | internal/lathecmd/workflow.go:118-147 | Claims in any order resolve a key alike |
| HostProtocol.RunsKeepInv | pkg/config/hosts.go:151-181 | In every interleaving of any number of processes each file state is the result of the committed mutations run in lock order, each on a fresh reading of the version before it; at most one process holds the lock |
| HostProtocol.RefreshesInRuns | pkg/runtime/oauth.go:56-108 | A committed refresh had read its entry from an earlier version; the entry it finds is renewed field by field where the token pair is still the very pair it sent and stays as it is elsewhere; no host logged out meanwhile comes back, contexts written meanwhile stay |
| HostProtocol.SelectionInRuns | pkg/config/hosts.go:130-145 | At most one host is selected in every state of every run, exactly one right after a login or a use commits |
| HostRegisters.StoreRefinesRegisters | pkg/config/hosts.go:151-181 | The file refines one register a host, for every host that no other name of the starting file or of a mutation becomes by repeated normalising: every field of its entry but the selection is that of the file as first loaded, after the committed mutations in lock order, so no update is lost |
| HostRegisters.StableNamesDisturbNone | pkg/config/hosts.go:18-24 | That is every host when the names in the file and in the mutations are stable once normalised |
| HostRegisters.UnstableNameIsLost | pkg/config/hosts.go:93-99 | In every run, an entry committed under a name that is not stable is under it in the next copy exactly when another committed name normalises to it, whose entry it then is; under its normalised name there is an entry |
| HostRegisters.ContextSurvives | pkg/runtime/oauth.go:84-104 | A context value stays through any later commits that neither write it nor log the host in with it or out |
| HostRegisters.LoggedOutStaysOut | pkg/runtime/oauth.go:84-104 | A host stays logged out until a login commits, whatever refreshes were in flight |
| HostStore.RefreshIsCompareAndSwap | pkg/runtime/oauth.go:84-108 | A refresh over the pair it sent stores a bearer entry with the new tokens, the old refresh token where none came, the expiry counted from now or none, and every other field as found; over any other pair it changes nothing; no other host changes |
| HostStore.RefreshDueAfterRefresh | pkg/runtime/oauth.go:41-54 | After such a refresh another is due at a time exactly when there is a refresh token, the new tokens expire and do so within a minute of that time, so none is due before |
| HostStore.LoginStores | internal/auth/login.go:160-180 | A login stores every field of its entry over the contexts it finds, its own contexts winning, and changes nothing but the selection of other hosts |
| HostStore.ExactlyOneAfterLoginOrUse | internal/auth/login.go:160-180 | A login or a use leaves exactly one host selected: the one used, or after a login the one selected before, or the new one when there was none |
| HostStore.RekeyKeepsAtMostOne | pkg/config/hosts.go:93-99 | Rekeying the loaded file, in any order, keeps at most one host selected |
| HostStore.CanonicalRekey | pkg/config/hosts.go:93-99 | Rekeying changes nothing on normalised keys |
| HostStore.Hosts.Load | pkg/config/hosts.go:80-101 | For every visiting order, each normalised key gets an entry stored under a key that normalises to it, the canonical one when there is one |
| HostStore.Hosts.Set | pkg/config/hosts.go:103-105 | Only the entry of the normalised name changes |
| HostStore.Hosts.Delete | pkg/config/hosts.go:112-119 | Removes the entry of the normalised name and reports whether there was one |
| HostStore.Hosts.Select | pkg/config/hosts.go:139-145 | For every visiting order, exactly the named host is marked and nothing else changes |
| HostStore.Hosts.Names | pkg/config/hosts.go:121-128 | Lists exactly the stored names, sorted |
| HostStore.Hosts.Selected | pkg/config/hosts.go:130-137 | Returns the least selected name, and the empty one when nothing is selected or the host stored under it is |
| HostStore.Hosts.LoginMutation | internal/auth/login.go:160-180 | The login closure merges contexts, keeps the selection of the entry it replaces and selects the host when none is reported |
| HostStore.Hosts.RefreshMutation | pkg/runtime/oauth.go:84-104 | The refresh closure stores and returns the entry it finds, renewed field by field exactly when its token pair is the pair sent, and fails exactly on a missing host |
| HostStore.Hosts.ContextMutation | pkg/runtime/context.go:130-145 | The context closure writes one context value of an existing host |
| HostNames.NormalizeIdempotentIff | pkg/config/hosts.go:18-24 | For every name, normalising twice changes nothing exactly when the bare name, without blanks around it and slashes after it, does not start with two https schemes, ends in no blank and has no blank after its scheme |
| HostNames.TwoSchemesLost | pkg/config/hosts.go:93-105 | A login to a host given with two schemes is stored with one, and the next load has it under the bare name only |
| PathLaws.ReadBack | pkg/runtime/body.go:220-253 | A successful set is read back by get exactly when the path is not empty (get returns the whole document there, set writes the empty key) |
| PathLaws.SetFrame | pkg/runtime/body.go:255-310 | Every path that does not overlap the written one reads as before, except that new array padding reads as null |
| PathLaws.PaddedWasAbsent | pkg/runtime/body.go:280-290 | What padding fills did not exist before |
| PathLaws.LastWriteWins | pkg/runtime/body.go:255-310 | A second set on the same path succeeds when the first did and leaves what it alone would have left |
| PathLaws.SetsCommuteValue | pkg/runtime/body.go:255-310 | Sets on paths that do not overlap commute, array padding and conflicts included |
| PathLaws.ClashBlocks | pkg/runtime/body.go:255-310 | Where a value is at one path, nothing is and nothing can be set at a path that goes through the same key as an array where the first goes through an object, or the other way round |
| PathLaws.SettableKept | pkg/runtime/body.go:255-310 | A set leaves every path settable that neither overlaps its own nor clashes with it so |
| PathLaws.OrderIrrelevant | pkg/runtime/body.go:135-178 | Any two orders of pairwise independent assignments build the same document or both fail |
| Documents.SetNestedSegs | pkg/runtime/body.go:255-310 | The recursive in-place set returns the new object, and the old one unchanged when it fails |
| Documents.Document.SetPath | pkg/runtime/body.go:220-222 | A set on a document is all or nothing |
| BodySets.MergeJsonBodySets | pkg/runtime/body.go:92-118 | Both loops succeed exactly when every assignment parses, leads into no field set by a flag and can be set after those before it, and leave their composition |
| BodySets.MergeIsSetAll | pkg/runtime/body.go:92-133 | Merging is parsing and checking all assignments and then setting them in turn: one that is malformed or conflicts fails the merge wherever it stands |
| BodySets.FlagFieldsKept | pkg/runtime/body.go:120-133 | After a merge that succeeds, every field that a flag has set still holds the value of the flag |
| BodyLaws.BothAreSetAll | pkg/runtime/body.go:92-118 | Both loops are one list of assignments set in turn, those of --set-str last and taken as text |
| BodyLaws.AssignmentMeans | pkg/runtime/body.go:187-198 | A path without an equals sign, an equals sign and a text are an assignment of that text, unless the path is empty or leads into a field of a flag; without an equals sign there is none |
| Envelope.EnvelopeOrderIrrelevant | pkg/runtime/body.go:135-178 | The envelope body is the same for every iteration order of its variable map when no two of its variables overlap |
| Envelope.BuildEnvelopeBody | pkg/runtime/body.go:135-178 | The method builds the template with the file, the variables and the sets written in that order, or fails |
| BodyLaws.EnvelopeHoldsSet | pkg/runtime/body.go:159-176 | A set is read back below the merge path when no later set overlaps it, whatever variables and file there are |
| BodyLaws.EnvelopeHoldsVariable | pkg/runtime/body.go:154-158 | A variable is read back when no later variable and no set overlaps it, whatever the file |
| BodyLaws.EnvelopeHoldsFile | pkg/runtime/body.go:140-153 | A file alone is read back at the merge path, and is an error without one |
| BodyLaws.EnvelopeKeeps | pkg/runtime/body.go:135-178 | What the template holds, and no assignment overlaps, stays |
| Envelope.ParsePrintedPath | pkg/runtime/body.go:204-218 | Parsing a printed path returns its segments |
| EventStreamReader.ReadSse | pkg/runtime/stream.go:93-160 | For every byte stream and every handler, the byte machine gives the fold of the handler over the declarative reading: split at CRLF, CR or LF, group by blank lines, join data with LF, drop comments and an unfinished last block, stop when the handler stops |
| EventStreamReader.Reader.ReadLine | pkg/runtime/stream.go:96-119 | With its one pending flag the reader returns the next terminated line and stands after its whole terminator |
| EventStreamReader.FoldAppend | pkg/runtime/stream.go:134-149 | A handler that stops in a first part of the events sees nothing of the second |
| EventStream.DispatchIsBlocks | pkg/runtime/stream.go:120-159 | Keeping only the last name and the data so far dispatches the events of the blocks |
| EventStream.LineMeans | pkg/runtime/stream.go:145-158 | A field is named by what stands before the first colon or by the whole line, its value loses one leading blank, and only event and data count |
| EventStream.GroupParts | pkg/runtime/stream.go:120-159 | The data of a group are those of its parts in order, its name that of the last part that has one |
| EventStream.StripMarkIsPrefix | pkg/runtime/stream.go:141-144 | Dropping the byte order mark from the first line is dropping it from the stream |
| EventStreamPrinter.PrintedEventsComeBack | pkg/runtime/stream.go:93-160 | Any list of printable events, printed with any mix of terminators that puts no bare CR right before an LF, reads back as itself |
| EventStreamPrinter.PrintedLinesComeBackIff | pkg/runtime/stream.go:96-119 | Printed lines all come back exactly when no bare CR stands immediately before an LF |
| EventStreamPrinter.PrintedLines | pkg/runtime/stream.go:96-119 | For every other mix, which lines survive |
| NewlineJson.ReadNdjson | pkg/runtime/stream.go:162-179 | The line reader hands on exactly the trimmed, non-blank lines, an unterminated last one included |
| StreamCollect.Collector.OnEvent | pkg/runtime/stream.go:24-66 | One event changes the collected map, the live output and the flags as the handler function says: reducers in order, then the live value; without a failure its name is no error event, and the stream pauses or stops as its name is a pause event or only a stop event |
| StreamCollect.Collector.ReduceStreamField | pkg/runtime/stream.go:195-232 | One reduction writes what the reducer says at the target, or leaves the map unchanged and fails |
| StreamCollect.CollectStream | pkg/runtime/stream.go:17-91 | The outcome and the live output are those of the events of the strategy; other formats and strategies are errors |
| StreamTheorems.CollectOutcome | pkg/runtime/stream.go:17-91 | Events are seen up to the first whose name, from the transport or else at the path the policy gives, is in one of its three lists. A document exists exactly when they reduce, their live values can be written, the last name is not an error event and, where demanded, is in a list; it is the fold of the reducers over exactly those events, and paused exactly when that name is a pause event |
| StreamTheorems.EndsByLists | pkg/runtime/stream.go:53-64 | An event in several lists fails before it pauses and pauses before it stops |
| StreamFields.EventValueMeans | pkg/runtime/stream.go:30-43 | A rule takes a value exactly from the events named in it: its constant without a path, else what the payload holds there |
| StreamTheorems.ShownMeans | pkg/runtime/stream.go:44-50 | A live value is shown exactly by the events of the live rule that hold one at its path |
| StreamTheorems.LiveOutput | pkg/runtime/stream.go:44-50 | For every writer, what has been written when reading ends is a prefix of the values shown up to the first terminal event, in arrival order, and all of them when there is a document |
| StreamTheorems.Seen | pkg/runtime/stream.go:53-64 | The events that count are the prefix up to and including the first terminal event |
| StreamConflicts.CollectsIff | pkg/runtime/stream.go:17-91 | With targets that do not overlap, there is a document exactly when every event decodes, the live values can be written, the stream ends as demanded, no value is taken for a target that clashes with an earlier one (an object member against an array element), and the values of every field fit its reducer, from nothing or, padded first, for first and last only |
| StreamConflicts.LawHoldsIff | pkg/runtime/stream.go:195-232 | When the stream ends well and the values fit: every field means what its reducer says exactly when no two targets that take values clash and no field is harmed by padding that comes before its own first value |
| StreamConflicts.TakesReduceIff | pkg/runtime/stream.go:195-232 | Any sequence of values for such targets reduces exactly under those two conditions |
| StreamFields.CollectedField | pkg/runtime/stream.go:195-232 | In a document, a field whose target overlaps no other holds the first, the last, the concatenation or the list of its own matching values, in arrival order, exactly when no rule that pads it takes a value before it does; a field padded first holds null, except that last still holds its last value |
| StreamFields.ReducedMeans | pkg/runtime/stream.go:195-232 | A field that starts out absent reduces exactly when its values fit the reducer, and to what the reducer means |
| StreamConflicts.PaddingRejects | pkg/runtime/stream.go:195-232 | A policy and a stream rejected by padding: a[1] takes the last of x, a[0] concatenates y, and x comes before y |
| StreamConflicts.MemberAgainstElement | pkg/runtime/stream.go:195-232 | A policy and a stream rejected by a clash, with nothing padded: a.b takes the last of x, a[0] the last of y |
| FlagSoundness.AcceptedIff | internal/codegen/normalize/normalize.go:36-58 | After the cookie, multipart and dash passes the runtime validator accepts exactly when every flag had a name, the parameters that no pass renames had distinct flags and, going into the dash pass, no name that a sensitive parameter answers to becomes, with a source suffix, a name that another answers to |
| FlagSoundness.DistinctAcceptedIff | internal/codegen/normalize/normalize.go:36-58 | On distinct declared flags: accepted exactly when all are named and no flag or unshared dash form of a sensitive parameter, with a source suffix, is a flag or unshared dash form of another |
| SensitiveParams.SensitivityIgnoresDashes | pkg/runtime/param_flags.go:244-268 | Whether a parameter is sensitive does not change when its flag takes its dash form |
| SensitiveParams.SensitiveMeans | pkg/runtime/param_flags.go:244-258 | A string parameter is sensitive exactly when its format says password in any case, its name and flag together hold one of nine words, or one of them is just token, letter case and everything but letters and digits aside |
| SensitiveParams.KeyOfLetter | pkg/runtime/param_flags.go:260-268 | What counts of a name: a capital as its letter, letters and digits as themselves (KeyOfOther: nothing else) |
| FlagSoundness.PipelineSound | internal/codegen/normalize/normalize.go:36-58 | Without sensitive declared parameters, distinct named flags are enough |
| FlagSoundness.RenamedHarmless | internal/codegen/normalize/params.go:373-414 | The cookie and the multipart pass make no parameter sensitive: their prefixes and numbers complete no marker |
| FlagSoundness.SensitiveSuffixClashes | pkg/runtime/param_flags.go:79-96 | The flags pw of a sensitive parameter and pw-env of another, named and distinct, are rejected after the passes |
| FlagSoundness.RenamedDistinct | internal/codegen/normalize/params.go:373-414 | After both suffix passes all flags are distinct exactly when those of the parameters that are not cookies were |
| FlagSoundness.DashedApart | internal/codegen/normalize/params.go:69-83 | No name of one parameter after the dash pass is a name of another, aliases included |
| FlagSoundness.OneTarget | pkg/runtime/param_flags.go:79-96 | No name of a parameter is bound to two targets |
| FlagBindings.ValidateParamFlags | pkg/runtime/param_flags.go:48-72 | The nested loops accept exactly when no name is empty and every name has one owner and one target |
| FlagBindings.AgreeIffBindable | pkg/runtime/param_flags.go:48-72 | What the loops accept, in terms of the parameters: no empty name, no name shared by two of them, one target for each name |
| FlagBindings.ParamFlagBindings | pkg/runtime/param_flags.go:79-96 | The bindings are the flag, its aliases and, for a sensitive parameter, each with each source suffix |
| FlagMeaning.BindingsMean | pkg/runtime/param_flags.go:79-96 | A parameter answers exactly to its flag and its aliases and, when sensitive, to each with -env, -file or -stdin behind it, and each sets its flag with the same ending |
| ParamFlags.DisambiguateCookieParamFlags | internal/codegen/normalize/params.go:373-395 | The in-place pass gives each cookie parameter in turn a flag not used yet, its own when free, and changes nothing else |
| ParamFlags.DisambiguateMultipartParamFlags | internal/codegen/normalize/params.go:397-414 | The same for every body parameter in turn, against the flags of the existing parameters and of the body parameters before it |
| FlagMeaning.CookiePassMeans | internal/codegen/normalize/params.go:373-395 | Other parameters stay; each cookie in turn keeps its flag when no other parameter and no cookie before it has it, and otherwise takes the first number of its flag with cookie- before it that none of them has |
| FlagMeaning.BodyPassMeans | internal/codegen/normalize/params.go:397-414 | The same for each body parameter with body- against the existing parameters and the body parameters before it |
| ParamFlags.NormalizeParamFlags | internal/codegen/normalize/params.go:69-83 | In place, a flag becomes its dash form, with the old flag as alias, exactly when the form is not empty, differs and is nobody else's |
| ParamFlags.FlagPasses | internal/codegen/normalize/normalize.go:36-58 | Both arrays are rewritten in place by the cookie, multipart and dash passes in that order, and the joined array is returned |
| DashForms.FormIdempotent | internal/codegen/normalize/names.go:113-128 | A flag is its own dash form exactly when it has no underscore, no double dash and no dash at an end; forming twice is forming once |
| DashForms.CollapseDashes | internal/codegen/normalize/names.go:113-128 | The loop drops each dash that follows a dash |
| SuffixSearch.FirstFree | internal/codegen/normalize/params.go:387-390 | The unbounded search ends, by injectivity of decimal suffixes over the finite set of used names, at a candidate that is free |
| SuffixSearch.EarlierUsed | internal/codegen/normalize/params.go:387-390 | The candidate found is the first: all earlier ones are used |
| SuffixSearch.AllocateName | pkg/runtime/command.go:276-290 | The search loop returns the name when free and otherwise the first free candidate behind the prefix |
| SuffixSearch.AllocatedApart | pkg/runtime/command.go:276-290 | Control flags added one after another never clash with the command's flags or one another |
| SuffixSearch.AllocatedUnchangedIff | pkg/runtime/command.go:276-290 | They keep their names exactly when those are distinct and free |
| CommandUses.UsesDistinct | internal/codegen/render/overlay.go:98-117 | Afterwards no two commands of a group share a name, nothing changes exactly when no two keys were equal, and a second pass changes nothing |
| CommandUses.UnchangedIffDistinct | internal/codegen/render/overlay.go:98-117 | With groups free of NUL, nothing changes exactly when the (group, use) pairs are distinct |
| CommandUses.NulInGroupClashes | internal/codegen/render/overlay.go:101-101 | A NUL in a group makes two different pairs one key, and the second is renamed |
| CommandUses.DisambiguateUse | internal/codegen/render/overlay.go:98-117 | The in-place loop gives each command in turn the first candidate whose key is free |
| CommandUses.OnlyUsesChange | internal/codegen/render/overlay.go:98-117 | Nothing but names changes |
| CommandMounts.FlatAcceptanceMounts | internal/codegen/render/paths.go:11-38 | What the generator resolves to a flat mount with accepted shortcuts, the runtime mounts without a path, alias, group, root or shortcut conflict, for names without leading or non-blank whitespace, one description a group, accepted flags and a root whose commands are all reserved |
| CommandMounts.FlatExactlyWhenMountable | pkg/runtime/build.go:47-106 | With one module, single-word aliases and exactly the reserved root commands, the generator mounts flat exactly when the runtime can |
| CommandMounts.BuildGroups | pkg/runtime/build.go:71-106 | The loop succeeds exactly when the flags of every command are accepted, descriptions agree and no path belongs to two commands, and returns the groups in order of first appearance |
| CommandMounts.DescriptionsMean | pkg/runtime/build.go:80-92 | Descriptions agree exactly when commands of one group have the same, one without any counting as the name of the group with operations |
| CommandMounts.BuildFlat | pkg/runtime/build.go:47-69 | The flat mount succeeds exactly when the groups build, their names are distinct and none is a name or alias at the root, and the shortcuts are valid beside them |
| Shortcuts.ValidateShortcuts | pkg/runtime/build.go:139-166 | Accepts exactly when every shortcut is a single word, fits its command and has a name of its own that no root command has |
| CommandPaths.ValidateCommandPaths | internal/codegen/render/paths.go:81-115 | Accepts exactly when no name is empty and no path belongs to two commands |
| CommandPaths.FlatPathConflict | internal/codegen/render/paths.go:63-79 | Finds a conflict exactly when a root name is reserved or shared by two groups |
| CommandPaths.ResolveFlatCommandPath | internal/codegen/render/paths.go:11-38 | An error exactly for invalid paths, an unknown policy over one module, or a flat policy with a conflict or not over one module; flat exactly for valid paths, one module, a flat, automatic or unset policy and no conflict |
| CommandMounts.TidyName | internal/codegen/render/paths.go:117-123 | On tidy names the first field is the name that cobra derives |
| QueryRoundTrip.QueryRoundTrip | pkg/runtime/operation.go:291-345 | From the whole query string, each argument with a name of its own is read back, values in order: always without a style or exploded, and otherwise exactly when no value contains a pipe where pipes delimit, or a comma where commas delimit and reserved characters are kept |
| QueryRoundTrip.ReadBackIff | pkg/runtime/operation.go:298-329 | One parameter of any type is read back from its pairs by its style and explode alone: always without a style or exploded, and otherwise exactly when its style can carry its values |
| QueryRoundTrip.ArrayRawsCount | pkg/runtime/operation.go:313-329 | Without a style or exploded, an array makes one raw for each value, which unescapes to it; otherwise a single raw, unless it is empty |
| QueryRoundTrip.ReadJoined | pkg/runtime/operation.go:313-329 | What reading a joined array returns in every case: its values, or their pieces between delimiters |
| QueryRoundTrip.QueryKeepsPairs | pkg/runtime/operation.go:331-345 | Sorting and printing lose no pair and keep the order under each name |
| QueryStrings.EncodeQueryPairs | pkg/runtime/operation.go:331-345 | Leaves the slice it is given stably sorted by key and returns the string that QueryKeepsPairs reads back |
| QueryStrings.SortLaws | pkg/runtime/operation.go:332-334 | The sort is by key and stable |
| Urls.UnescapeEscape | pkg/runtime/operation.go:287-296 | Unescaping undoes escaping, whether or not reserved characters are kept |
| Urls.ReplaceIsKeep | pkg/runtime/operation.go:233-248 | Replacing the triplets of reserved characters after escaping is escaping that keeps them |
| Urls.OtherEscapes | pkg/runtime/operation.go:233-257 | Apart from letters and digits, which stay: four marks stay, a blank becomes a plus sign, the fourteen reserved characters are kept where asked, every other byte becomes a triplet |
| PaginationTheorems.OffsetReadsList | pkg/runtime/paginate.go:14-69 | Against any server that answers the first request, at any offset and else unchanged, with consecutive slices of any length, the document that paging by offset returns reads as the list from the first offset on, without gap or duplicate: all of it when an empty page ends the loop, which it does when the list is shorter than the page limit |
| PaginationTheorems.CursorReadsChain | pkg/runtime/paginate.go:39-56 | The document that paging by a cursor returns, in the query or in the body, reads as the pages of the chain in order, up to the page limit or the last page: the one that holds no text at the token field or, for a body cursor, says beside it that there is no next page |
| Pagination.MergedReadsBack | pkg/runtime/paginate.go:197-206 | The merged document read like a page gives exactly the items |
| Pagination.MergedHoldsListIff | pkg/runtime/paginate.go:197-206 | It holds a list at the path exactly when there are items, and null otherwise |
| PaginationTheorems.BodyParamTwice | pkg/runtime/paginate.go:71-94 | Rewriting the body parameter twice is rewriting it once, and the body then carries the token |
| Pagination.PaginateAll | pkg/runtime/paginate.go:14-69 | An error exactly when the page loop breaks off; otherwise a document that reads, like a page, as the items of all pages in order, with the default limit for limits that are not positive |
| Pagination.ReadPages | pkg/runtime/paginate.go:28-66 | The loop gathers the pages in order and stops at the end, an error or the limit |
| Pagination.NearestInteger | pkg/runtime/paginate.go:22-26 | A numeral in the first offset reads as the nearest integer of 64 bits |
| QueryRewrite.SetQueryParamLaw | pkg/runtime/paginate.go:169-195 | A rewritten URL keeps its path and all other pairs, as written and in order, and holds the key exactly once, with the value |
| QueryRewrite.SetQueryParam | pkg/runtime/paginate.go:169-195 | The loop over the pairs builds exactly the URL that SetQueryParamLaw and GetAfterSet speak of |
| QueryRewrite.GetAfterSet | pkg/runtime/paginate.go:24-25 | Reading the key from the rewritten URL returns the value |
| CurrencyLaws.CurrencyRoundTrip | pkg/runtime/column_format.go:25-61 | For every integer and valid format the printed text, read without sign, prefix and commas, denotes the integer again |
| CurrencyLaws.CurrencyInjective | pkg/runtime/column_format.go:25-61 | Different integers print differently |
| CurrencyLaws.AmountExact | pkg/runtime/column_format.go:36-42 | The digits printed denote the value divided by ten to the source scale, exactly, and the sign is that of the value |
| CurrencyLaws.AmountRegular | pkg/runtime/column_format.go:33-42 | Between the least and the most fraction digits, no zero at the end beyond the least, no leading zero and no negative zero |
| CurrencyLaws.PrintedHead | pkg/runtime/column_format.go:46-55 | The text starts with a sign exactly for negative amounts, then a dollar sign for USD or the code and a blank, then a digit |
| CurrencyLaws.CommaPositions | pkg/runtime/column_format.go:136-152 | Commas stand exactly where a multiple of three digits is left |
| CurrencyLaws.GroupedReadsBack | pkg/runtime/column_format.go:136-152 | Removing the commas gives the digits back |
| Currency.GroupInteger | pkg/runtime/column_format.go:136-152 | The loop from the left groups as counted from the right |
| Currency.FormatColumnValue | pkg/runtime/column_format.go:25-61 | The loops print the amount, or nothing for another kind, a value that is no integer or a format that is not three capital letters with at most 18 digits, no fewer than the scale of the source and the least asked for |
| SelectionLaws.SelectionValid | internal/codegen/backends/graphql/selection.go:14-58 | For every finite schema, recursive types included, a generated selection set is valid: each field belongs to its type, in order, leaves have no sub-selection and other fields a non-empty one, no selected field is pruned or needs an argument |
| SelectionLaws.SelectionBounded | internal/codegen/backends/graphql/selection.go:43-45 | No selection set is nested deeper than the limit |
| SelectionLaws.SelectionExistsIff | internal/codegen/backends/graphql/selection.go:14-58 | One is generated exactly when a walk along eligible fields, within the depth limit and off the path, reaches a leaf or a union and no pruning pattern on its way is malformed |
| SelectionLaws.SelectsOffered | internal/codegen/backends/graphql/selection.go:26-53 | Exactly the fields that lead to a leaf or a union are selected |
| Selections.BuildSelectionSet | internal/codegen/backends/graphql/selection.go:14-58 | The recursion with a cloned path and a loop over the fields computes the selection, and terminates |

## Left out

- WorkflowTheorems.AcceptedWorkflowsDoNotGoWrong: assumes that a reference which is a whole expression names a known step up to its last brace; OneBraceIsTidy gives the condition to look for, and ExtraBraceGoesWrong shows that it cannot be dropped.
- WorkflowSkips.ReadingSkippedStepSkips: assumes that the step's other references resolve, since a failing one may be visited first (ParameterOrderDecides).
- StreamConflicts.CollectsIff: speaks of targets that overlap no other; two rules on one target, or one inside the other, reduce into the same value and no single reducer describes it.
- HostRegisters.StoreRefinesRegisters: says nothing of a host that another stored name becomes by repeated normalising; whose entry such a host then has depends on the order in which a Go map is visited.
- PaginationTheorems.OffsetReadsList: the list has at most 2^63 - 1 elements and the first offset lies within it.
- SchemaKeywords.KeepsKeywords: a null that a reference left in place allows by `nullable`, beside other keywords, is assumed to be accepted by its target too; the compiled schema has one place for `nullable` and cannot tell the two.
- HostStore.RefreshDueAfterRefresh: times are unbounded integers; a token life of more than 2^63 nanoseconds, which overflows Go's time.Duration, is not modelled.
- Shortcuts.ValidateShortcuts: whether the preset parameters of a shortcut fit its command (shortcutSpec) is part of the input.
- SensitiveParams.SensitivityIgnoresDashes: folds ASCII letters only, so the Kelvin sign, the dotted capital I and the long s are not letters of a name or format here.
- Pagination.PaginateAll: a request body that is the JSON text null is an error, where the code panics on writing into a nil map.
- Envelope.BuildEnvelopeBody: starts from assignments that are split already; malformed ones are errors as in BodySets.
- Go maps and slices are modelled by values held in objects, arrays or loop variables: two names for one JSON map (a reduced value stored twice, a template or request body changed through another reference) are not modelled, nor is the panic on a nil template map.
- Strings are sequences whose elements are bytes for searching, splitting, percent-encoding, the byte order mark and the event stream reader, and characters of the decoded text where white space is trimmed: host names, workflow expressions, command and shortcut names and the newline-delimited reader. Lower-casing is a parameter of the command paths and of the workflow operators.
- JSON, YAML and MIME parsing, the printing of JSON, inferValue, floating-point numbers and workflowString's text of a number are parameters or start from parsed values; an amount starts from the integer that parseInteger reads.
- HTTP, retries, token requests, time, files and locks: requests and answers are steps or parameters, the lock and the atomic replacement of the file are steps of the protocol; Hosts.Save without the lock is left out, and so are the file format and permissions.
- The text of error messages, and the distinction between kinds of errors where the callers do not look at it; redaction.
- The root names of workflows, the input declarations of normalizeWorkflow and the resolution of contexts before a request: single loops over names, which would only repeat the kinds of claims made here.
- The overlay merge around disambiguateUse (mergeOverlaySpecs, applyGroupOverrides, applyCommandOverride): field-by-field copying.
- camelToKebab, commonNoisePrefix, path styles (pathParamValue), header and cookie escaping, list and column derivation: small next to the rest.
- The printed text of a selection set, glob matching in prune patterns and the call site's retry: the selection is modelled as a tree, pattern matching as a parameter.
- collectStream decodes each event with a decoder that is a parameter; the two readers stop on a read error, which is not modelled.
- slices.SortStableFunc and sort.Strings are modelled by loops that are proved to sort, the former stably.
- Cobra and pflag wiring, help, tables, Skill and Go templates, search, version comparison and timers are not part of this model.
