# Verified models of seven algorithms

This project models the parts of the repository where a small amount of code carries a promise that is easy to
break, and proves that promise for every input. Check it with `dafny verify dfyconfig.toml`.

| Modules | What they model |
|---|---|
| `GraphqlTypes`, `ProjectionDocument`, `CacheOnlySearch`, `ProjectionRender`, `ResponseSemantics`, `FieldReachability`, `ProjectionSoundness`, `ProjectionExactness`, `ProjectionStrip`, `ProjectionPlugin`, `ProjectionErrors`, `ProjectionRefusals`, `ProjectionRestriction`, `ProjectionCompiler` | The GraphQL code generator that leaves `@cacheOnly` fields out of result types |
| `ResolverSchema`, `ArgumentPaths`, `PathJson`, `EntityResolver`, `ResolverGenerator` | The generator of cache entity-resolver metadata |
| `SessionRouter`, `RouterRuns`, `SessionRecorder` | The session recorder: routing JSON-RPC lines into per-session recordings |
| `MessageParts`, `StreamAccumulation`, `Replay`, `TurnPairing` | Folding a stream into a transcript, and replaying the transcript as provider turns |
| `ToolSearch`, `ToolRanking`, `ToolLoading`, `ToolSession` | On-demand tool loading: search and its ranking, the concurrent protocol, and its sequential hooks |
| `SchemaNormalizer` | The request-schema rewrite and a JSON Schema evaluator to prove it against |
| `DiffTracker`, `GitDiff`, `DiffHeaders`, `DiffReading`, `DiffExactness`, `DiffExamples` | The unified-diff line tracker, the diffs git prints, and when the one reads the other right |
| `AudioWindow`, `ChunkLines` | The rolling audio buffer and greedy line chunking |
| `Outcomes`, `Sequences`, `StringOrder`, `Json` | Shared results, sequence facts, sorting by code unit, JSON values |

Code that computes a value is a function here; code that changes state in place is a class or a method with a
loop, proved equal to a function whose properties the lemmas then state.

## How the meaning is given

* **Projection.** A response is defined from the specification's own algorithms (CollectFields, section 6.3.2,
  and merged selection sets, section 6.4.3, of the GraphQL specification, October 2021), without reference to the
  compiler. Rendered types are a datatype with a membership relation under width subtyping (`Fits`); in its exact
  form an entry the type does not mention must hold nothing visible. Documents contain no `@skip` or `@include`,
  schemas are valid (including covariant interface fields), and fields that share a response key can be merged
  (section 5.3.2). Fragment cycles are not valid documents (section 5.5.2.2), but the search, termination and
  soundness results cover them; only exactness assumes there are none.
* **Argument paths.** Walks along field names through non-list input objects, independent of the depth-first search.
* **Recorder.** Lines are parsed records; a run is any sequence of them. An open request is defined from the
  history alone, and the router's map is proved to be exactly that.
* **Replay.** Turns are defined on the parts; the loop's state is proved to be the turns so far.
* **Tool loading.** A run is any sequence of atomic steps, so every interleaving of searches, loads, tool results,
  invalid calls and registrations is covered. Sequential use is a special case of such runs.
* **Schemas.** `Evaluate` follows JSON Schema Core 2020-12 (sections 10 and 11) for the keywords the rewrite enters
  and for `unevaluatedProperties` and `unevaluatedItems`, with annotations. All other keywords are an arbitrary
  function of their own members and the instance.
* **Diffs.** Edits are kept, removed and added lines per file; a reference walk over the new file says which of its
  lines were added and where they stand. A file's name is printed as it is, or quoted with its escaped form. What git
  prints between a file header and the first hunk is arbitrary, but no such line reads as a header, a hunk, context or
  an addition.

## Where code and documentation differ

Each of these follows the code, and a lemma gives the exact condition or an input.

* A valid document is refused when an object type narrows the type of an interface field, both forms of the field are
  selected under one response key, and the interface's comes first: the narrower type's own fields are then looked up
  on the interface's type (`RendersIff`, `ValidRenders`, `NarrowedFieldIsRefused`).
* A held-back request line is lost when a later request of the same direction reuses its id
  (`LinesAreConservedIff`, `ReusedIdLosesLine`).
* `replay_item_id` still ends in a separator for an id made of separators only (`ItemIdEndsInSeparatorIff`,
  `SeparatorIdExample`).
* Tool results are paired with their calls, and roles alternate, under conditions on the parts
  (`ResultsFollowCallsIff`, `RolesAlternateIff`); a text between a call and its result breaks both
  (`TextSeparatesResult`).
* Search ranks by the number of query terms found, counting a repeated term again; its comment says distinct terms.
  The two rankings agree exactly when any two terms, neither containing the other, occur equally often
  (`RanksAsDocumentedIff`, `RepeatedTermMisranks`).
* The recovery of an invalid tool call can report a tool as loaded while another registration is still waiting for
  the server to add it (`ReturnedIsCallableIff`, `RecoveryCanReturnEarly`).
* A chunk of lines can exceed the limit, exactly when some line does (`WithinLimitIff`, `LongLineExample`).
* The diff check reports the added lines of the checked files exactly when none of them starts with `++` and every
  header leaves the right file current (`PiecesAreRightIff`, `DiffIsReadIff`). A line that starts with `++` is skipped
  and shifts the numbers after it (`PlusLineExample`); a path that contains ` b/` is cut short (`HeaderIsReadIff`,
  `PathExample`); and a quoted header leaves the previous file current (`QuotedFileExample`).

## Model

| member | source | states |
|---|---|---|
| CacheOnlySearch.HasCacheOnlyIsReachability | apps/web/scripts/graphql-cache-only-projection-codegen.ts:35-73 | The search answers true exactly when some chain of sub-selections, inline fragments and spreads reaches a `@cacheOnly` field, and it answers whenever every spread is defined; cutting off active fragments loses nothing |
| CacheOnlySearch.CutToLastVisit | apps/web/scripts/graphql-cache-only-projection-codegen.ts:63-70 | Any chain of spreads that revisits a fragment can be cut to one that enters it once and still ends at the same selections |
| ProjectionRender.NestedContextsAreSmaller | apps/web/scripts/graphql-cache-only-projection-codegen.ts:235-254 | The contexts rendered for a field are strictly smaller, in fragments not yet active and then selection size, than the contexts the field came from |
| ProjectionRender.CollectedContextsBelow | apps/web/scripts/graphql-cache-only-projection-codegen.ts:159-210 | Everything collected from some contexts is strictly below them in that measure, so rendering terminates on cyclic fragments too |
| GraphqlTypes.PossibleIff | apps/web/scripts/graphql-cache-only-projection-codegen.ts:122-127 | The object types rendered for a composite type are itself, the implementers of an interface, or the members of a union |
| GraphqlTypes.AppliesIffPossible | apps/web/scripts/graphql-cache-only-projection-codegen.ts:129-137 | A fragment applies to an object type exactly when that is possible for its condition |
| GraphqlTypes.ScopeFieldOnConcrete | apps/web/scripts/graphql-cache-only-projection-codegen.ts:227-233 | A field looked up on the scope it was selected in exists on every concrete type the scope applies to, with a covariant type |
| FieldReachability.CollectedIsReached | apps/web/scripts/graphql-cache-only-projection-codegen.ts:159-206 | Every field the compiler collects is one that a chain of applying fragments reaches from the selections, and it is not `@cacheOnly` |
| FieldReachability.ReachedIsCollected | apps/web/scripts/graphql-cache-only-projection-codegen.ts:159-206 | Conversely, without fragment cycles, each visible field so reached is collected, unless the chain passes a fragment that is active already |
| ProjectionSoundness.ObjectFits | apps/web/scripts/graphql-cache-only-projection-codegen.ts:150-263 | A response object of a concrete type has the record rendered for that type, through list and null wrapping, covariance, `__typename` and merged sub-selections |
| ProjectionSoundness.JoinedFits | apps/web/scripts/graphql-cache-only-projection-codegen.ts:265-286 | It also has the union over all possible object types, in which branches that are equal as types occur once |
| ProjectionExactness.WrapIsExact | apps/web/scripts/graphql-cache-only-projection-codegen.ts:87-95 | Conversely, a wrapped type admits nothing else: null exactly where the schema type is nullable, lists exactly where it is a list, and inside them what the named type admits |
| ProjectionExactness.LeafAdmitsCompletions | apps/web/scripts/graphql-cache-only-projection-codegen.ts:75-95 | For a built-in scalar or an enum, in any wrapping, that is exactly what a server may complete the field with |
| ProjectionExactness.UnionIsExact | apps/web/scripts/graphql-cache-only-projection-codegen.ts:265-286 | A union admits exactly the objects that the record of one of the possible object types admits |
| ProjectionExactness.PropertyIsExact | apps/web/scripts/graphql-cache-only-projection-codegen.ts:213-260 | A property admits exactly the values of the schema field its first selection names, or for `__typename` the one type name |
| ProjectionExactness.RecordPropertyIsExact | apps/web/scripts/graphql-cache-only-projection-codegen.ts:211-262 | At every depth a property of an emitted record admits null if and only if that schema field is nullable, custom scalars aside, whose type is `unknown` |
| ProjectionExactness.EmittedIsExact | apps/web/scripts/graphql-cache-only-projection-codegen.ts:97-109 | The emitted type is that of the root type the schema declares for the operation, under the operation's name |
| ProjectionStrip.RenderStripped | apps/web/scripts/graphql-cache-only-projection-codegen.ts:150-286 | Rendering a document and rendering it with its `@cacheOnly` fields removed give the same type or the same error |
| ProjectionStrip.StripCanMerge | apps/web/scripts/graphql-cache-only-projection-codegen.ts:166-176 | Removing `@cacheOnly` fields keeps fields that share a response key mergeable |
| ProjectionPlugin.EmittedIffCacheOnly | apps/web/scripts/graphql-cache-only-projection-codegen.ts:302-318 | A type is emitted exactly for the named operations that reach a `@cacheOnly` field |
| ProjectionPlugin.OutputIsInOrder | apps/web/scripts/graphql-cache-only-projection-codegen.ts:301-321 | The output has one type for each such operation, in document order |
| ProjectionPlugin.FirstErrorIsThrown | apps/web/scripts/graphql-cache-only-projection-codegen.ts:301-321 | It throws exactly when some definition fails, with the error of the first that does |
| ProjectionPlugin.FragmentsAreDefined | apps/web/scripts/graphql-cache-only-projection-codegen.ts:293-300 | Spreads are resolved among the document's fragments, a name by its last definition |
| ProjectionErrors.RendersIff | apps/web/scripts/graphql-cache-only-projection-codegen.ts:150-286 | Rendering succeeds if and only if, at every level reached, the fragments met are sound and the first field of each response key is declared by the type it is looked up on |
| ProjectionErrors.ValidRenders | apps/web/scripts/graphql-cache-only-projection-codegen.ts:150-286 | Every valid selection renders if implementing types keep the named types of interface fields, fragment cycles or not |
| ProjectionErrors.ValidDocumentCompiles | apps/web/scripts/graphql-cache-only-projection-codegen.ts:289-321 | So a valid document is then compiled without an error |
| ProjectionRefusals.NarrowedFieldIsRefused | apps/web/scripts/graphql-cache-only-projection-codegen.ts:227-253 | Otherwise, wherever an object type narrows a field to a type with a further field, some valid selection is refused |
| ProjectionPlugin.ResponsesFit | apps/web/scripts/graphql-cache-only-projection-codegen.ts:289-321 | Every response to the whole operation has the emitted type |
| ProjectionPlugin.RestrictedResponsesFit | apps/web/scripts/graphql-cache-only-projection-codegen.ts:288-321 | Every response to the operation without its `@cacheOnly` fields has the emitted type, with or without fragment cycles |
| ProjectionPlugin.RestrictedResponsesFitExactly | apps/web/scripts/graphql-cache-only-projection-codegen.ts:288-321 | Without fragment cycles such a response holds nothing visible beyond the type, and `void` is emitted only if nothing is visible in it |
| ProjectionRestriction.ResponseRestricts | apps/web/scripts/graphql-cache-only-projection-codegen.ts:288-321 | Every response to the whole operation, with entries deleted and nothing else changed, is a response to the operation without its `@cacheOnly` fields |
| ProjectionRestriction.RestrictionFits | apps/web/scripts/graphql-cache-only-projection-codegen.ts:288-321 | So what the server sent, without its `@cacheOnly` entries, has the emitted type, and without fragment cycles holds nothing visible beyond it |
| ProjectionCompiler.SelectionSetHasCacheOnly | apps/web/scripts/graphql-cache-only-projection-codegen.ts:35-73 | The search over a mutable set agrees with its function and, when it returns, leaves the set as it found it |
| ProjectionCompiler.FieldsByResponseKey.Push | apps/web/scripts/graphql-cache-only-projection-codegen.ts:157-175 | Pushing a field appends it to its response key's group and keeps the keys in order of first occurrence |
| ProjectionCompiler.RenderSelections | apps/web/scripts/graphql-cache-only-projection-codegen.ts:159-206 | Collecting pushes the specified fields and, when it returns, restores the active set |
| ProjectionCompiler.RenderSelection | apps/web/scripts/graphql-cache-only-projection-codegen.ts:165-204 | The same for one selection, error cases included |
| ProjectionCompiler.CollectAll | apps/web/scripts/graphql-cache-only-projection-codegen.ts:208-210 | All shared selection sets are collected and every shared active set is restored, so one concrete type never affects the next |
| ProjectionCompiler.RenderGroup | apps/web/scripts/graphql-cache-only-projection-codegen.ts:213-260 | One response key is rendered as specified, from its first field and all nested selections |
| ProjectionCompiler.RenderObject | apps/web/scripts/graphql-cache-only-projection-codegen.ts:150-263 | The record for one concrete type, or the error |
| ProjectionCompiler.RenderAll | apps/web/scripts/graphql-cache-only-projection-codegen.ts:265-286 | The projections for all possible object types, in order |
| ProjectionCompiler.Plugin | apps/web/scripts/graphql-cache-only-projection-codegen.ts:289-321 | The emitted types of a whole document, or its first error |
| ArgumentPaths.StepIffInput | apps/web/scripts/generate-graphql-cache-entity-resolver-schema.ts:62-75 | The steps of a walk are exactly the declared fields of input objects |
| ArgumentPaths.ThrowsIffLongWalk | apps/web/scripts/generate-graphql-cache-entity-resolver-schema.ts:45-86 | Collection throws exactly when some walk through non-list input objects takes more than sixteen steps |
| ArgumentPaths.CyclesThrow | apps/web/scripts/generate-graphql-cache-entity-resolver-schema.ts:65-69 | A cycle reachable without crossing a list always throws, whatever surrounds it |
| ArgumentPaths.RecursionIsReal | apps/web/scripts/generate-graphql-cache-entity-resolver-schema.ts:65-69 | The recursion error names a type that really reaches itself |
| ArgumentPaths.CollectsExactlyIdPaths | apps/web/scripts/generate-graphql-cache-entity-resolver-schema.ts:45-86 | A normal return has exactly the paths from the argument to an `ID` leaf |
| ArgumentPaths.CollectsWithoutRepeats | apps/web/scripts/generate-graphql-cache-entity-resolver-schema.ts:45-86 | No path is collected twice |
| PathJson.JsonInjective | apps/web/scripts/generate-graphql-cache-entity-resolver-schema.ts:146-148 | Different paths of names have different JSON, so sorting by it is a total order on paths |
| StringOrder.LessIff | apps/web/scripts/generate-graphql-cache-entity-resolver-schema.ts:35-38 | Strings are ordered by the first code unit that differs, a proper prefix first |
| EntityResolver.KeyableIffKeyField | apps/web/scripts/generate-graphql-cache-entity-resolver-schema.ts:40-43 | A type is keyable exactly when the document declares an object type of that name with a field `id: ID!` |
| EntityResolver.TargetsAreExact | apps/web/scripts/generate-graphql-cache-entity-resolver-schema.ts:121-130 | The targets are exactly the object types with a field `id: ID!` that a field can return, in increasing order |
| EntityResolver.FieldMetadataIsExact | apps/web/scripts/generate-graphql-cache-entity-resolver-schema.ts:105-151 | A field has an entry exactly when it returns some type with `id: ID!` and has some identifier path; the entry lists all of both, sorted |
| EntityResolver.MetadataIsExact | apps/web/scripts/generate-graphql-cache-entity-resolver-schema.ts:96-155 | The metadata has exactly the entries of the fields that have one, under their owners |
| EntityResolver.PermutedIsSame | apps/web/scripts/generate-graphql-cache-entity-resolver-schema.ts:92-101 | A document with its declarations permuted declares the same under every name |
| EntityResolver.DerivationForgetsOrder | apps/web/scripts/generate-graphql-cache-entity-resolver-schema.ts:89-156 | Metadata or error do not depend on the order of types, fields, arguments, input fields, union members or interfaces |
| ResolverGenerator.CollectArgumentPaths | apps/web/scripts/generate-graphql-cache-entity-resolver-schema.ts:45-86 | The recursion that pushes into the shared output appends exactly the specified paths, or fails with the specified error |
| ResolverGenerator.Generate | apps/web/scripts/generate-graphql-cache-entity-resolver-schema.ts:89-156 | The nested loops compute the specified metadata, or its first error |
| SessionRouter.Router.Route | crates/agent_session/examples/agent_session_recorder.rs:205-275 | Routing one line returns the specified appends and updates the map only under the line's own key |
| SessionRouter.Router.Drain | crates/agent_session/examples/agent_session_recorder.rs:280-290 | Draining empties the map and gives back the held-back lines in key order |
| SessionRouter.DrainIsDeterministic | crates/agent_session/examples/agent_session_recorder.rs:277-290 | The order in which the hash map enumerates its entries does not show |
| RouterRuns.PendingIsHistory | crates/agent_session/examples/agent_session_recorder.rs:193-248 | After any run the map holds exactly the open requests of the history, each with the latest line's entry |
| RouterRuns.CallGoesWhereItSays | crates/agent_session/examples/agent_session_recorder.rs:221-243 | In any run a request or notification goes to the session it names; without one a request is held back and a notification stays at connection level |
| RouterRuns.ResponseFollowsItsRequest | crates/agent_session/examples/agent_session_recorder.rs:244-271 | A response goes where the opposite-direction request it answers belongs, never by a same-id request of its own direction, and a held-back request comes out immediately before it, to the same destination |
| RouterRuns.DrainedIffHeld | crates/agent_session/examples/agent_session_recorder.rs:280-290 | The drain gives back exactly the sessionless requests neither answered nor reissued, at connection level |
| RouterRuns.RunConserves | crates/agent_session/examples/agent_session_recorder.rs:205-275 | Over any run, the lines in equal the lines routed, plus those held, plus those overwritten |
| RouterRuns.LinesAreConservedIff | crates/agent_session/examples/agent_session_recorder.rs:205-291 | With the final drain no line is ever duplicated, and all lines come out exactly when no request reuses a held-back request's id |
| RouterRuns.ReusedIdLosesLine | crates/agent_session/examples/agent_session_recorder.rs:231-237 | Two sessionless requests under one id: the first line is in none of the run's appends, the second is |
| SessionRecorder.Recorder.AppendShared | crates/agent_session/examples/agent_session_recorder.rs:335-340 | A shared line reaches every open recording and the shared list |
| SessionRecorder.Recorder.AppendToSession | crates/agent_session/examples/agent_session_recorder.rs:341-363 | A session line opens its recording with the shared lines so far, if it is new, and is then appended |
| SessionRecorder.Recorder.AppendLines | crates/agent_session/examples/agent_session_recorder.rs:327-367 | Applying appends extends the applied history by exactly these and keeps every file as that history says |
| SessionRecorder.RunWriter | crates/agent_session/examples/agent_session_recorder.rs:304-320 | A whole run applies exactly the routed appends followed by the drained ones |
| SessionRecorder.RecordingsStandAlone | crates/agent_session/examples/agent_session_recorder.rs:301-367 | Whenever it was opened, what is written to a recording is all shared lines and all of the session's lines, each once and in order, and nothing else; other files are untouched |
| SessionRecorder.CallIsInItsFile | crates/agent_session/examples/agent_session_recorder.rs:221-243 | A call that names a session is in that session's file and, received once, in no other |
| SessionRecorder.ResponseIsInItsFile | crates/agent_session/examples/agent_session_recorder.rs:244-271 | So is the response to it, and when a response mints a session, both it and its request |
| SessionRecorder.SharedLineIsInEveryFile | crates/agent_session/examples/agent_session_recorder.rs:280-290 | A notification that names no session, or a request never answered, is in every recording of the run |
| MessageParts.MergeConsecutiveParts | crates/agent/src/convert.rs:210-230 | The loop computes the specified merge |
| MessageParts.MergeOfPieces | crates/agent/src/convert.rs:210-230 | Merging is idempotent, and merging pieces first changes nothing |
| MessageParts.MergedHasNoAdjacentRuns | crates/agent/src/convert.rs:209-230 | No two adjacent parts are both text or both thinking, and nothing becomes empty |
| MessageParts.MergeKeepsContent | crates/agent/src/convert.rs:209-230 | Every character and every other part survives, in order |
| MessageParts.ContentDeterminesMerged | crates/agent/src/convert.rs:209-230 | Two merged sequences with the same content are equal |
| StreamAccumulation.StreamAccumulator.Push | crates/agent/src/accumulator.rs:32-36 | An event is stored unmerged and handed back, or carries nothing and changes nothing |
| StreamAccumulation.StreamAccumulator.IsEmpty | crates/agent/src/accumulator.rs:53-55 | It agrees with the merged parts being empty |
| StreamAccumulation.Accumulate | crates/agent/src/accumulator.rs:32-47 | Feeding a whole stream yields the merge of what its events persist as |
| StreamAccumulation.AccumulationKeepsContent | crates/agent/src/accumulator.rs:64-99 | The parts carry the stream's text and thinking, character by character, and its calls and responses with all their fields, in order |
| StreamAccumulation.AccumulationSeesOnlyContent | crates/agent/src/accumulator.rs:38-47 | The parts depend only on the concatenated runs, not on how the deltas were split |
| Replay.ConvertAssistant | crates/agent/src/convert.rs:119-184 | The loop with its three pieces of state computes the specified messages |
| Replay.ReplayOfMerged | crates/agent/src/convert.rs:119-184 | Replaying merged parts gives the same messages as replaying the raw ones |
| Replay.ReplayIsByTurns | crates/agent/src/convert.rs:119-184 | Replay emits, turn by turn, the turn's text and calls and then its results |
| TurnPairing.ReplayConserves | crates/agent/src/convert.rs:127-184 | For every input the text concatenates; the k-th call has the name, trimmed id and object arguments (else none) of the k-th call part, and the k-th result the error or payload of the k-th result part |
| TurnPairing.ReplayIsWellFormed | crates/agent/src/convert.rs:232-249 | No message is empty, and an assistant message is at most one text block followed only by calls |
| TurnPairing.ResultsFollowCallsIff | crates/agent/src/convert.rs:119-184 | Every result message directly follows the assistant message with its calls, under equal ids, exactly when each result shares a turn with a call of the same replayed id |
| TurnPairing.CloseResultsArePaired | crates/agent/src/convert.rs:119-184 | It suffices that every result follows its call with no text in between |
| TurnPairing.RolesAlternateIff | crates/agent/src/convert.rs:119-184 | Roles strictly alternate, assistant first, exactly when every turn closed by a text has a result and the last turn is not results alone |
| TurnPairing.AnsweredCallsAlternate | crates/agent/src/convert.rs:119-184 | It suffices that results follow their calls closely and every call is answered before the next text |
| TurnPairing.TextSeparatesResult | crates/agent/src/convert.rs:132-168 | A call, a text and the call's result replay as two assistant messages and a result message that follows the wrong one |
| TurnPairing.CallIdIsTrimmed | crates/agent/src/convert.rs:186-196 | Exactly the trailing separators are removed |
| TurnPairing.ItemIdEndsInSeparatorIff | crates/agent/src/convert.rs:198-207 | A replayed item id ends in a separator exactly when the persisted id is nothing but separators |
| TurnPairing.SeparatorIdExample | crates/agent/src/convert.rs:205-207 | The persisted id `_` is replayed as `fc_` |
| ToolSearch.ScoreCountsDistinctIff | crates/ai_tools/src/search_tools.rs:174-178 | On one haystack the score is the number of distinct terms found exactly when no found term is repeated |
| ToolRanking.FoundIff | crates/ai_tools/src/search_tools.rs:168-179 | A tool is found exactly when some term is a substring of its lower-cased name or description, or there are no terms |
| ToolRanking.EvenQueryScores | crates/ai_tools/src/search_tools.rs:159-178 | If all terms occur equally often, the score is that number times the number of distinct terms found |
| ToolRanking.RanksAsDocumentedIff | crates/ai_tools/src/search_tools.rs:159-182 | For terms without spaces, scores order all haystacks by distinct terms found if and only if any two terms, neither containing the other, occur equally often |
| ToolRanking.SearchRanksAsDocumented | crates/ai_tools/src/search_tools.rs:159-182 | Under that condition search orders any two tools as documented, ties by name included |
| ToolRanking.RepeatedTermMisranks | crates/ai_tools/src/search_tools.rs:174-182 | A query and two tools that search puts in the opposite of the documented order |
| ToolSearch.SearchCorrect | crates/ai_tools/src/search_tools.rs:163-185 | Search finds exactly the matching tools and puts them in rank order |
| ToolSearch.SearchIgnoresCatalogOrder | crates/ai_tools/src/search_tools.rs:181-182 | If names identify tools, the result does not depend on the order of the catalog |
| ToolSearch.BestMatchesAreStaged | crates/ai_tools/src/search_tools.rs:187-202 | No match left out ranks before one that is loaded, and matches are left out only past eight |
| ToolSearch.SearchAndStage | crates/ai_tools/src/search_tools.rs:190-209 | The best matches are staged and reported as loaded, the rest as additional; together they are all matches |
| ToolSearch.LoadReportsEachName | crates/ai_tools/src/search_tools.rs:212-239 | Every requested name is reported exactly once, as loaded or as not found |
| ToolSearch.LoadReportsTruly | crates/ai_tools/src/search_tools.rs:220-228 | Loaded tools are in the catalog, and names not found are not |
| ToolSearch.LoadTools | crates/ai_tools/src/search_tools.rs:212-239 | The loop over three vectors reports and stages the specified tools |
| ToolLoading.EveryRunAddsOnce | crates/agent/src/agent_loop.rs:133-204 | In every interleaving each name is added to the server at most once, the name set holds exactly the names added or being added, and everything staged is in the buffer or was taken once and in order |
| ToolLoading.StepKeeps | crates/agent/src/hook.rs:142-223 | Each atomic step of a search, load, tool result, invalid call or registration keeps that invariant |
| ToolSession.ReturnedIsCallableIff | crates/agent/src/agent_loop.rs:168-204 | When a registration returns, a tool it was given is on the server exactly when no other registration is still adding that name |
| ToolSession.RecoveryCanReturnEarly | crates/agent/src/hook.rs:151-162 | An interleaving in which an invalid call is told its tool is loaded before the server has it |
| ToolSession.RestingRunHasLoaded | crates/agent/src/agent_loop.rs:168-204 | After any interleaving that has come to rest, everything taken or recovered is on the server |
| ToolSession.SearchedIsLoaded | crates/ai_tools/src/search_tools.rs:190-203 | In any interleaving that has come to rest with the buffer taken, the first eight tools of every search made are on the server |
| ToolSession.RequestedIsLoaded | crates/ai_tools/src/search_tools.rs:212-239 | So is every catalog tool that a load named |
| ToolSession.CalledIsLoaded | crates/agent/src/hook.rs:142-168 | And every catalog tool that an invalid call named, whether or not the buffer was taken |
| ToolSession.SoloRun | crates/agent/src/agent_loop.rs:175-202 | A registration that runs uninterrupted adds exactly the names not yet in the set, in order |
| ToolSession.ResultsLoadEverythingStaged | crates/agent/src/hook.rs:205-223 | With hooks run one at a time, after each tool result the buffer is empty and everything staged earlier is on the server |
| ToolSession.RecoveryLoads | crates/agent/src/hook.rs:142-168 | With hooks run one at a time, an invalid call that names a catalog tool leaves it on the server |
| ToolSession.RegisterAllCorrect | crates/agent/src/agent_loop.rs:163-204 | Registering keeps what the server has, adds every name given and repeats none |
| ToolSession.LoadedTools.RegisterLoaded | crates/agent/src/agent_loop.rs:175-202 | The loop over the shared set and the server does just that |
| ToolSession.LoadedTools.HandleToolResult | crates/agent/src/hook.rs:205-223 | The buffer is taken and everything in it registered |
| ToolSession.LoadedTools.HandleInvalidToolCall | crates/agent/src/hook.rs:142-168 | A catalog tool is registered and reported as loaded; any other name changes nothing |
| SchemaNormalizer.NotNegates | crates/agent/src/tool_adapter.rs:41-45 | The evaluator's `not`, alone in a schema, accepts exactly what its schema rejects, and evaluates nothing |
| SchemaNormalizer.ClosedObjectIff | crates/agent/src/tool_adapter.rs:26-45 | Under the evaluator, closing an object schema with `additionalProperties` or `unevaluatedProperties` accepts exactly the objects with declared properties only, each as declared |
| SchemaNormalizer.ListsDecide | crates/agent/src/tool_adapter.rs:36-40 | Under the evaluator, `allOf` demands every schema of its list, `anyOf` one at least and `oneOf` exactly one |
| SchemaNormalizer.ConditionDecides | crates/agent/src/tool_adapter.rs:41-45 | `if` demands `then` of what it accepts and `else` of what it rejects |
| SchemaNormalizer.ItemsDecide | crates/agent/src/tool_adapter.rs:36-45 | `prefixItems` judges items by position and `items` those after them |
| SchemaNormalizer.ClosedArrayIff | crates/agent/src/tool_adapter.rs:36-40 | Closing an array schema with `unevaluatedItems` accepts no items past `prefixItems` |
| SchemaNormalizer.NormalizePreserves | crates/agent/src/tool_adapter.rs:7-46 | For every instance and every reading of the other keywords, the rewritten schema gives the same verdict and the same evaluated properties and items, so it may stand beneath `not`, `if` or beside `unevaluatedProperties` |
| SchemaNormalizer.FollowNormalized | crates/agent/src/tool_adapter.rs:26-45 | Along the thirteen keywords that hold schemas the rewrite reaches every schema, and makes no new ones |
| SchemaNormalizer.OnlyPropertiesAdded | crates/agent/src/tool_adapter.rs:19-25 | At each schema nothing is changed but that an object schema without `properties` gets an empty one |
| SchemaNormalizer.NormalizedIsComplete | crates/agent/src/tool_adapter.rs:7-46 | Every reachable object schema ends with `properties` |
| SchemaNormalizer.FixedIffComplete | crates/agent/src/tool_adapter.rs:14-46 | A schema is left alone exactly when that held already, and the rewrite is idempotent |
| SchemaNormalizer.NormalizeRequestSchema | crates/agent/src/tool_adapter.rs:14-46 | The loops over keywords, names and lists compute the specified rewrite |
| AudioWindow.WindowIsLongestSuffix | services/transcription/transcriber.py:256-273 | The window is the longest suffix of the recorded frames within the limit |
| AudioWindow.PcmHoldsFrame | services/transcription/transcriber.py:283-285 | The drained samples hold each frame's data right after that of the frames before it |
| AudioWindow.WindowSnoc | services/transcription/transcriber.py:267-273 | Trimming as each frame arrives gives the same window as trimming once |
| AudioWindow.AudioBuffer.RecordAudioFrame | services/transcription/transcriber.py:263-273 | The buffer stays the window of all frames since the last drain, and the sample count its sum; the first frame ever settles rate and channels |
| AudioWindow.AudioBuffer.DrainAudioBuffer | services/transcription/transcriber.py:275-290 | Draining returns the window's samples in order and starts afresh, or returns nothing exactly when the window is empty |
| ChunkLines.ChunkLines | crates/agent_fold/scripts/sanitize_recording.py:161-174 | The loop computes the specified chunks |
| ChunkLines.ChunksAreFaithful | crates/agent_fold/scripts/sanitize_recording.py:161-174 | The chunks concatenate back to the text, and only a chunk that is a single line exceeds the limit |
| ChunkLines.WithinLimitIff | crates/agent_fold/scripts/sanitize_recording.py:161-162 | All chunks are within the limit exactly when all lines are |
| ChunkLines.LongLineExample | crates/agent_fold/scripts/sanitize_recording.py:161-174 | A line of two characters is one chunk under a limit of one |
| ChunkLines.FewestChunks | crates/agent_fold/scripts/sanitize_recording.py:166-173 | No whole-line split within the limit has fewer chunks |
| DiffTracker.GetChangedLines | apps/web/scripts/check-tailwind.ts:41-93 | The loop computes the specified result |
| DiffTracker.RelevantIff | apps/web/scripts/check-tailwind.ts:51-56 | The checked files are those under `apps/web/src/` whose extension is `.tsx`, `.ts`, `.jsx` or `.js` |
| DiffHeaders.HeaderIsReadIff | apps/web/scripts/check-tailwind.ts:48-52 | An unquoted header always gives a path, and the new one exactly when that path does not contain ` b/` |
| DiffHeaders.QuotedHeaderIsReadLater | apps/web/scripts/check-tailwind.ts:48-52 | A header whose old name is quoted gives only what the names themselves, read as a header, would give |
| DiffHeaders.HunkIsRead | apps/web/scripts/check-tailwind.ts:69-73 | A printed hunk header reads back as the new-file line it states |
| DiffReading.BodyIsNumbered | apps/web/scripts/check-tailwind.ts:76-90 | Within a hunk, with or without context lines, added lines are reported with their numbers in the new file |
| DiffReading.DiffIsCollected | apps/web/scripts/check-tailwind.ts:41-93 | For every multi-file diff, whatever its headers, the result is, edit by edit, what is collected from the edit's hunks under the file current after its header |
| DiffReading.PieceIsRightIff | apps/web/scripts/check-tailwind.ts:66-90 | What is collected from an edit is exactly what it added if and only if no added line of a checked file starts with `++` and the file current is the edit's own, none if it is not checked, unless there is nothing to collect or expect |
| DiffReading.PiecesAreRightIff | apps/web/scripts/check-tailwind.ts:41-93 | For every diff, every edit's added lines are collected as they are if and only if every edit is read right in that sense, with the current file followed through the headers |
| DiffExactness.DiffIsReadIff | apps/web/scripts/check-tailwind.ts:41-93 | For diffs with distinct paths, none of them misread from another edit's header, the whole result is the added lines of the checked files, in order and with their numbers in the new files, if and only if every edit is read right |
| DiffExactness.OrdinaryDiffIsReadIff | apps/web/scripts/check-tailwind.ts:41-93 | If no name is quoted or contains ` b/`, that is if and only if no added line of a checked file starts with `++` |
| DiffExamples.MisreadFileMakesUp | apps/web/scripts/check-tailwind.ts:48-62 | Why the whole result needs the condition on misreading: two edits with distinct paths, not read right, whose result is right by accident |
| DiffExamples.QuotedFileIsMistaken | apps/web/scripts/check-tailwind.ts:48-62 | For any ordinary file and any quoted one after it, the line added to the second is reported for the first |
| DiffExamples.QuotedFileExample | apps/web/scripts/check-tailwind.ts:48-62 | Such a diff of two files, the second with `é` in its path |
| DiffExamples.PathExample | apps/web/scripts/check-tailwind.ts:49-60 | A path that contains ` b/` whose added line is not reported |
| DiffExamples.PlusLineExample | apps/web/scripts/check-tailwind.ts:77-85 | An added `++i` is left out and the next line gets its number |

## Left out

- The runtime projector in `crates/client/cache-core/src/normalize.rs`: it drops empty objects and overwrites merged
  response keys, so it does not compute the generated types, and nothing here is claimed of it.
- Writing TypeScript out as text in both GraphQL generators: types and metadata stay data. Parsing and validating
  GraphQL are preconditions.
- ProjectionCompiler.RenderSelections: the copy of the active set that a pushed field keeps is a value here, and a
  set object is allocated from it only when the field's own selections are rendered.
- ProjectionSoundness.JoinedFits: branches are merged when they are equal as types, where the source compares their
  text, so an enum type that is named like a scalar's TypeScript type is not covered.
- Error messages and error precedence beyond which error is thrown first.
- In the recorder: parsing of lines, file names (recordings are keyed by session id, so ids that map to one file
  name are not covered), flushing, timestamps, and partial writes; each append is one update of the file.
- In replay: user and system messages, attachments, and a plain-text assistant message. How JSON is written out is
  a parameter.
- In tool loading: dropping a hook's future in the middle of a registration, tools the server has from the start,
  cancellation, and the text sent to the model. Lower-casing and splitting a query into words are parameters.
- Reading a `$ref`: the evaluator has none, because it follows the schema's structure. `patternProperties`,
  `dependentSchemas`, `contains` and the like are part of the arbitrary reading of other keywords.
- In the transcriber: everything but the audio buffer; its voice clusters would add a nearest-neighbour loop and
  counters over an abstract distance.
- In the sanitizer: secret detection and replacement. Splitting text into lines is a parameter of `ChunkLines`.
- In the diff check: running git, splitting its output at line feeds, the search for class names, and numbers too
  large for a double. How git escapes a quoted name is given with the edit, except in the example.
- Strings are sequences of characters compared by character; surrogate pairs are not modelled.
