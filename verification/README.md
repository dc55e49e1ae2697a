# Verified model of the C analyser's core algorithms

The repository analyses C processes statically and serves snapshots of the result. This project models
the parts of it that carry the hard guarantees and proves them for every input, every interleaving and
every sequence of calls:

- **Bottom-up summary scheduler** (`function_summaries.py`): the two-pass grouping of recursive
  functions, the leaf-to-root layers, the asynchronous run and its content-addressed cache key.
  Modules `Orders`, `CallGraph`, `Grouping`, `Kosaraju`, `FinishingOrder`, `MarkOnExpand`, `Layering`,
  `WrittenPass`, `ReducedCalls`, `SummaryPlan`, `SummaryRun`, `SummaryReplies`, `SummaryTheorems`, `SummaryPrompt`,
  `SummaryCache`, `SummaryCoverage`, `WrittenPlans`.
- **Formula language** (`value_flow/transfers.py`): evaluation with unknown leaves, simultaneous
  substitution, validation, and agreement with C `int` arithmetic (ISO/IEC 9899:1999). Modules `Formula`,
  `Substitution`, `Validation`, `FormulaLeaves`, `IntegerLiterals`, `CInt`.
- **Snapshot scanner and cache** (`frontend/visualizer_readmodel.py`): the hand-written JSON skipper
  against all renderings of RFC 8259 values, the section scanner, the walk over `source_files`, and the
  bounded LRU. Modules `JsonSkipper`, `JsonText`, `SnapshotScan`, `SnapshotShape`,
  `SnapshotTheorems`, `SnapshotRecord`, `SourceMeta`, `BoundedLru`.
- **Call trees** (`call_graph/`, `parser/parser_files.py`): unfolding a cyclic graph, searching the
  trees, and the node labels that are printed and parsed back. Modules `CallTree`, `CallTreePaths`, `TreeSearch`,
  `Labels`, `LabelReading`, `Splitting`.
- **Evidence** (`value_flow/status.py`, `discovery_index.py`, `aggregate_index.py`): what alternatives
  prove together, conservation of call sites and path counts, wrapper aliases, which records enter the indexes of
  a process, merging of indexes. Modules `ValueStatus`, `Classification`, `DiscoveryRows`, `Discoveries`,
  `WrapperAliases`, `Evidence`, `RowContents`, `Promotion`, `Aggregates`.
- **Include closure** (`makefile_resolver/extract_includes.py`): `pathlib` paths, which keep `..`, the index over the
  include roots, the three rules of `find`, the worklist turn by turn, when it ends, and when a key leads back to its
  file. What is tracked are paths, of which several may be one file. Modules `IncludePaths`, `IncludeIndex`, `IncludeNames`,
  `IncludeClosure`, `IncludeWalk`, `IncludeKeys`, `LostKeys`.

Code that works by updating variables is modelled by methods with loops (the LRU and the path search by
classes); each one is proved equal to a specification function or relation, and the theorems are about that.

Where the code and what is said about it disagree, the code is followed:

- The first grouping pass marks a callee when it is pushed, so its order is not a depth-first post-order
  and the groups can be coarser than the strongly connected components (`WrittenPass.WrittenPassIsNotExact`).
  `Kosaraju.ExactIffCallersFinishLater` gives the exact condition on its order, `ReducedCalls.WithoutDetoursExact` one on
  the calls alone that suffices, `MarkOnExpand` the pass that meets it, and everything that the layers promise holds for
  the pass as written.
- The comment at `value_flow/transfers.py:238-244` says that a formula with an opaque leaf never has an exact value;
  `Formula.OpaqueCanBeExact` shows one, and `Formula.KnownResultIsIndependent` states what holds instead.
- `skip_value` does not stop at a carriage return behind a number; `JsonText.SkippedExactly` says when the
  returned index is just past the value, `JsonText.CarriageReturnSkipped` shows `1` before a carriage return, and
  `JsonText.ValueThenWs` says why the callers still find the delimiter.
- The fast path and the full parse differ when a structural field is no array, or appears twice and only the
  earlier one is an array: `SnapshotTheorems.FastPathAgrees`, `SnapshotTheorems.FastPathDiffers`, and for the whole
  record of a run `SnapshotRecord.RecordsAgree`.
- The walk over `source_files` never ends when an element that is no object is followed by a comma:
  `SourceMeta.WalkEndsIff`, `SourceMeta.NumberFirstNeverEnds`.
- The cache key of a recursive function does not cover what only its recursion peers call:
  `SummaryCache.PeerCalleesUnseen`, `SummaryCoverage.ReachedNotCovered`; `SummaryCoverage.CoversAllReachedIff` says when
  a key covers everything that the function reaches. `WrittenPlans` shows that the code makes the plans used there.
  Without a `source_sha256` peers miss each other's edits as well: `SummaryCache.PeersMissEdit`.
- Marking aliases can drop a value from the exact indexes altogether: one wrapper suffices, if a call of it that covers
  the row inside it may itself not enter the indexes, as a call outside the process
  (`WrapperAliases.PromotionsKeptIffNoWrappers`, `Promotion.OutsideCallHides`). Where covering rows may enter, values are
  lost exactly if wrappers stand for each other in a cycle (`WrapperAliases.PromotionsKeptIffAcyclic`).
- Rows of one discovery are merged into the first although they may lie in different functions, so with two functions on
  one line the order of records decides whether a launch is indexed: `Promotion.FirstDecides`. With one function to a line
  `Promotion.LaunchedByAny` holds.
- The label of an external function printed without a line has no position block, so a definition range is
  read as one: `Labels.ExternalWithoutLine`.
- The include walk follows paths, not files, so two headers that include each other by way of `..` get longer and
  longer paths: it never ends until the system refuses the length of a path. `IncludeWalk.WalkEndsIff` gives the exact
  condition, `IncludeWalk.TwoFilesNeverEnd` the two headers.
- If a seed is given by a relative path, an entry of `combined` can be lost although the code guards against it:
  `LostKeys.MainLosesAnEntry`. `LostKeys.KeysLeadBackIff` gives the condition on the seeds: with absolute paths every
  key leads back to its file.

## Model

| member | source | states |
|---|---|---|
| Grouping.ReverseDependencies | function_summaries.py:256-260 | the two nested loops give every function exactly its callers inside the graph |
| Grouping.CollectGroup | function_summaries.py:266-277 | the inner stack loop collects, sorted, exactly the unassigned functions that reach the start, and assigns them |
| Grouping.SecondPass | function_summaries.py:262-278 | for any order, the components are the groups of ancestors not claimed by an earlier start |
| FinishingOrder.FinishingOrderAsWritten | function_summaries.py:238-254 | the stack loop that marks on push computes the finishing order of the pass as written |
| FinishingOrder.OrderAsWrittenIsPermutation | function_summaries.py:238-254 | that loop terminates and lists every function exactly once, on every graph |
| Kosaraju.AnyOrderGroups | function_summaries.py:262-278 | for any finishing order that is a permutation, the groups partition the functions and calls, also indirect ones, never lead to an earlier group |
| Kosaraju.AnyOrderKeepsRecursionTogether | function_summaries.py:262-278 | for any such order mutually recursive functions share their group |
| Kosaraju.AssignedClosedUnderCallers | function_summaries.py:262-278 | after every group the assigned set is closed under callers |
| Kosaraju.ExactIffCallersFinishLater | function_summaries.py:234-278 | the groups are exactly the strongly connected components if and only if, for every call between two classes, the caller's class finishes last |
| WrittenPass.TriangleOrder | function_summaries.py:238-254 | on the calls 1 to 2, 1 to 3, 2 to 3 the first pass finishes 2, 3, 1 |
| WrittenPass.WrittenPassIsNotExact | function_summaries.py:237-278 | on that graph the condition fails and 2 and 3 share a group without being mutually recursive |
| MarkOnExpand.FinishingOrderMarkOnExpand | function_summaries.py:238-254 | with the mark moved to the expansion, the pass lists every function once and callers' classes finish last |
| MarkOnExpand.ReachListed | function_summaries.py:247-249 | when a function finishes that is no peer of an open one, everything it reaches is already listed |
| Layering.StronglyConnectedComponents | function_summaries.py:234-278 | both passes as written: sorted groups that partition the functions, callers first, exact if and only if the order meets the condition |
| Layering.ExactComponents | function_summaries.py:237-278 | with the repaired first pass: every function in exactly one component, two in the same one exactly if mutually recursive, components sorted, callers first |
| Layering.SomethingReady | function_summaries.py:303-316 | as calls lead only to later components, some remaining component is always ready: the defensive branch is dead |
| Layering.SortByComponent | function_summaries.py:304-314 | the ready components, each once, ordered by their first (smallest) ids |
| Layering.LayerComponents | function_summaries.py:300-320 | the layering loop ends; every component is placed once, above all it depends on, directly above one of them |
| Layering.DependencyLayers | function_summaries.py:281-321 | fails exactly on an unknown callee; otherwise the slots partition the functions, every callee outside the slot is in an earlier layer, and a slot's layer is 0 or one more than the highest layer it calls |
| ReducedCalls.WithoutDetoursExact | function_summaries.py:234-278 | if no two functions that call into one other class reach one another without being mutually recursive, callers' classes finish last in the pass as written and its groups are exactly the strongly connected components |
| Layering.RecursionSharesSlot | function_summaries.py:284-288 | mutually recursive functions share a slot |
| SummaryPlan.BuildEdges | function_summaries.py:346-363 | dependencies are exactly the calls between functions that are neither external nor from a library, external calls the names of the called ones that are |
| SummaryPlan.RunGraphIsClosed | function_summaries.py:346-363 | a run never gives `dependency_layers` an unknown callee |
| SummaryPlan.Tasks | function_summaries.py:559-564 | every function gets one task with its layer and its group |
| SummaryPlan.TasksAreValid | function_summaries.py:556-564 | those tasks form a valid schedule: callees outside the group are in earlier layers |
| SummaryPlan.ScheduleUnique | function_summaries.py:556-564 | the groups determine the layers: two valid schedules with the same groups, no function higher than it must be and no layer empty, are equal |
| SummaryPlan.PlanRun | function_summaries.py:346-564 | for all functions and calls, the edge sets, the layers and the task loop together give a valid plan: its edges are those of the calls, each task carries a slot of the layers |
| SummaryRun.StartFingerprint | function_summaries.py:389-411 | in every reachable state the computed fingerprint is the specified one: no callee falls back to its id |
| SummaryRun.StepKeeps | function_summaries.py:492-573 | every step of the run keeps the invariant on tasks, fingerprints, cache, prompts, semaphore and report |
| SummaryRun.RunKeeps | function_summaries.py:492-573 | so does every interleaving |
| SummaryReplies.OutcomeIsReply | function_summaries.py:512-553 | over every interleaving a function is `ready` with the one reply given for it, which is not empty, is its summary and, under its fingerprint, its cache entry; it has failed exactly with one reply that is a failure or empty, has no summary, and the old entry stands; a hit was asked nothing and has the cached summary |
| SummaryTheorems.StartSeesSettledCallees | function_summaries.py:389-394 | when a fingerprint is computed, each callee outside the group has a settled outcome and a recorded fingerprint |
| SummaryTheorems.PromptShowsFinalSummaries | function_summaries.py:445-450 | the summaries that go into a prompt, before the cut, are those that the run leaves its settled callees, also in every later state |
| SummaryPrompt.DependencyText | function_summaries.py:446-452 | the loop over the callees, the default texts, the joining and the cut at `max_dependency_chars` |
| SummaryPrompt.PromptTextShows | function_summaries.py:446-452 | the text sent is the cut of a text with one line for each callee outside the group, in order, with its name and final summary or what stands for a missing one; without such callees it is the cut of a fixed text |
| SummaryPrompt.ShownIff | function_summaries.py:452-452 | a line is shown in full exactly if it ends before the cut |
| SummaryTheorems.SemaphoreBound | function_summaries.py:343-343 | at most max(1, concurrency) tasks hold the semaphore |
| SummaryTheorems.ReportAddsUp | function_summaries.py:558-574 | at the end ready + cached + failed is the number of functions |
| SummaryTheorems.ScheduleIndependent | function_summaries.py:492-512 | fingerprints and cache hits do not depend on the interleaving or the model's replies |
| SummaryTheorems.NoDeadlock | function_summaries.py:512-574 | an unfinished run can always take a step |
| SummaryTheorems.RunsAreShort | function_summaries.py:492-574 | no run takes more than four steps per function and one per layer |
| SummaryCache.FingerprintDigests | function_summaries.py:389-411 | a fingerprint digests, field by field, the own `source_sha256` or the digest of the source, the fingerprints of the callees outside the group in order, the `source_sha256` of the others in the group in order, the names of external callees in order, the model and the wiki |
| SummaryCache.FingerprintIsContents | function_summaries.py:389-411 | with an injective digest two fingerprints, of one or two runs, are equal if and only if own digest, external names, model, wiki, peers' digests in order and recursively the callees' contents are |
| SummaryCache.ChangeSeenIffNoticed | function_summaries.py:389-411 | after any change of one function's record, with or without a `source_sha256`, exactly the fingerprints change that notice it: its own by the digest it uses, its peers' by the one they see, and callers' through them |
| SummaryCache.ChangeSeenIffCovered | function_summaries.py:389-411 | a change that the peers see as well changes exactly the fingerprints that cover the function |
| SummaryCache.PeersMissEdit | function_summaries.py:395-402 | an edit that leaves `source_sha256` as it is, also missing, is missed by every recursion peer |
| SummaryCache.PeerCalleesUnseen | function_summaries.py:391-398 | a recursive function whose calls stay in its group keeps its fingerprint whatever changes outside it, also in a callee of a peer, which it reaches |
| SummaryCache.CoversReach | function_summaries.py:391-398 | without recursion a fingerprint covers exactly what the function reaches |
| SummaryCoverage.CoversAllReachedIff | function_summaries.py:391-398 | a fingerprint covers everything the function reaches if and only if it covers the callees outside the group of every function it covers and reaches |
| SummaryCoverage.CoversReachIff | function_summaries.py:391-398 | with groups of mutually recursive functions it covers exactly what the function reaches if and only if it covers the outside callees of everything it covers |
| WrittenPlans.RecursiveIsProduced | function_summaries.py:234-564 | where `f` and `g` call each other and `g` calls `x`, grouping, layers and tasks as written give exactly the plan of `SummaryCoverage.ReachedNotCovered` |
| WrittenPlans.CoarseGroups | function_summaries.py:234-278 | on the calls 1 to 2, 1 to 3, 2 to 0, 2 to 3 the pass as written joins 2 and 3 |
| WrittenPlans.CoarseIsProduced | function_summaries.py:234-564 | from them the code makes exactly the plan of `SummaryCoverage.CoveredNotReached` |
| SummaryCoverage.ReachedNotCovered | function_summaries.py:391-398 | where `f` and `g` call each other and `g` calls `x`, `f` reaches `x` and does not cover it |
| SummaryCoverage.CoveredNotReached | function_summaries.py:391-398 | in a group that is too coarse a function covers one that it does not reach, and not that one's callee |
| SummaryCache.UnchangedIsReused | function_summaries.py:498-510 | a function summarised in a finished run is a cache hit with the same summary in the next run of the same plan |
| SummaryCache.EditRedoesExactlyNoticed | function_summaries.py:498-553 | after any change of one record the next run asks the model again for exactly the functions that notice it; for a change that peers see, exactly for those that cover it |
| Formula.KnownIsStable | value_flow/transfers.py:366-436 | a known value is unchanged under every extension of the known parameters, constants and opaque leaves |
| Formula.KnownResultIsIndependent | value_flow/transfers.py:355-445 | the same for `evaluate_formula` with its magnitude test |
| Formula.OpaqueCanBeExact | value_flow/transfers.py:396-400 | `0 && leaf` is 0 although the leaf is never evaluated |
| Formula.QuotedEvaluates | value_flow/transfers.py:189-196 | a character literal is its code, other quoted text a string, and rejected text unknown |
| Formula.ShiftsAre | value_flow/transfers.py:423-424 | on all integers, shifting left doubles once per position, and shifting right halves and rounds down |
| Substitution.SubstTextIsSubst | value_flow/transfers.py:119-126 | replacing placeholders in the token text, also inside opaque expressions, is substituting parenthesised actuals in the syntax, all at once |
| Substitution.SubstTextAt | value_flow/transfers.py:119-126 | anywhere in the text a placeholder with an actual becomes that actual in parentheses, untouched inside, and every other token stays |
| Substitution.PlaceholderIndices | value_flow/transfers.py:99-107 | the distinct parameters in order of first occurrence |
| Substitution.DependsOnMentioned | value_flow/transfers.py:363-380 | a formula depends on the parameters it mentions and on no others |
| Substitution.SubstitutionLemma | value_flow/transfers.py:119-126 | evaluating the substituted formula is evaluating the formula with the actuals' values |
| Substitution.SubstComposes | value_flow/transfers.py:119-126 | two hops of substitution are one hop with the composed actuals |
| Substitution.HopByHop | value_flow/transfers.py:355-445 | evaluating with the magnitude test at each hop, whenever known, agrees with the composed formula |
| Substitution.RouteByHops | value_flow/transfers.py:355-445 | the same over a whole route of hops |
| Validation.ValidateNode | value_flow/transfers.py:253-310 | accepts exactly formulas whose leaves are in scope and whose literals have values, and collects the literals in order; a number is accepted exactly if its text spells one |
| FormulaLeaves.InScopeIff | value_flow/transfers.py:253-310 | being in scope is that every leaf is: a number that spells a value, quoted text that parses, an existing parameter, a visible name, `true` or `false`, an opaque expression where those are allowed |
| FormulaLeaves.LiteralsAre | value_flow/transfers.py:253-310 | collected are exactly the literal leaves, and inside opaque leaves the literals with a value |
| FormulaLeaves.LiteralsStand | value_flow/transfers.py:253-310 | in the order in which they stand in the text |
| Validation.ValidateFormula | value_flow/transfers.py:313-352 | accepts exactly those whose literals are also grounded in the evidence |
| Validation.NumberGroundedIff | value_flow/transfers.py:330-351 | a number literal is grounded exactly if it is an allowed 0 or 1, occurs as it stands, or spells a number of which the evidence has some spelling |
| Validation.QuotedGroundedIff | value_flow/transfers.py:330-351 | a quoted literal is grounded exactly if it occurs as it stands, or is one character whose code some spelling in the evidence gives |
| Validation.SubstKeepsScope | value_flow/transfers.py:253-310 | substituting actuals valid in the caller into a formula valid in the callee is valid in the caller |
| Validation.SubstKeepsLiterals | value_flow/transfers.py:253-310 | substitution invents no literal |
| Validation.ValidatedUnknownOnlyByFault | value_flow/transfers.py:366-445 | a validated formula without opaque and string leaves and with known integer leaves is unknown exactly through an evaluated zero divisor, negative shift count, or the magnitude test |
| IntegerLiterals.PositionalOfDigits | value_flow/transfers.py:175-188 | reading the digits of a number gives it back, in every base |
| IntegerLiterals.EverySpelling | value_flow/transfers.py:19-188 | a text is read as a number if and only if it is one of its spellings: hexadecimal, binary, octal or decimal, digits in either case, leading zeros where the form has them, any suffix |
| IntegerLiterals.NumberEvaluates | value_flow/transfers.py:370-445 | `evaluate_formula` gives a number literal exactly the value that its text spells, if that passes the magnitude test |
| CInt.DivisionIdentity | value_flow/transfers.py:411-422 | `(a/b)*b + a%b == a`, the remainder is smaller than the divisor and has the dividend's sign |
| CInt.TruncatedDiscards | value_flow/transfers.py:411-415 | the quotient is the one that discards the fraction |
| CInt.BitwiseBits | value_flow/transfers.py:425-427 | every bit of the bitwise and, or and exclusive or on unbounded integers, negative ones included, is the operation on the bits of the operands |
| CInt.BitsDetermine | value_flow/transfers.py:425-427 | so the bits determine the result |
| CInt.EvalAgreesWithC | value_flow/transfers.py:366-436 | where C defines the value of every evaluated node, the evaluator finds exactly it if the evaluated leaves are known, and nothing otherwise |
| CInt.EvaluateAgreesWithC | value_flow/transfers.py:355-445 | then `evaluate_formula` is unknown exactly for an unknown evaluated leaf or INT_MIN |
| BoundedLru.Lru.constructor | frontend/visualizer_readmodel.py:101-106 | an empty cache with its limits |
| BoundedLru.Lru.Get | frontend/visualizer_readmodel.py:108-117 | the fresh value of the key, which becomes the most recent; an expired entry is removed |
| BoundedLru.Lru.Put | frontend/visualizer_readmodel.py:119-129 | the key moves to the recent end with the new value, then eviction from the old end; `_bytes` stays the sum of the sizes |
| BoundedLru.Lru.Delete | frontend/visualizer_readmodel.py:131-134 | exactly the key's entry goes |
| BoundedLru.Lru.Length | frontend/visualizer_readmodel.py:136-137 | the number of entries |
| BoundedLru.EvictedIsLongestSuffix | frontend/visualizer_readmodel.py:125-129 | eviction leaves exactly the longest suffix of the recency order that fits both bounds |
| BoundedLru.GetIs | frontend/visualizer_readmodel.py:108-117 | a live entry is answered and becomes the most recent, one older than the time to live goes, a missing key changes nothing |
| BoundedLru.PutIs | frontend/visualizer_readmodel.py:119-129 | the old entry of the key goes, the new one is the most recent, then the oldest go, as few as the bounds ask for |
| BoundedLru.RunIsConsistent | frontend/visualizer_readmodel.py:98-137 | after any calls the contents are the latest writes of their keys, ordered by last use |
| BoundedLru.HitIsLatest | frontend/visualizer_readmodel.py:108-117 | after any calls a hit returns the latest value put for the key, neither deleted since nor expired |
| BoundedLru.RunFits | frontend/visualizer_readmodel.py:119-129 | after any calls both bounds hold |
| JsonSkipper.SkipString | frontend/visualizer_readmodel.py:276-292 | jumping between quotes and counting backslashes finds the same end as reading the string forwards |
| JsonSkipper.SkipContainer | frontend/visualizer_readmodel.py:297-312 | the depth loop ends where the container closes |
| JsonSkipper.SkipValue | frontend/visualizer_readmodel.py:294-319 | the three branches compute the value's end or the error |
| JsonSkipper.StandsStill | frontend/visualizer_readmodel.py:313-319 | the skipper makes no progress exactly at a delimiter |
| JsonText.StringSkipped | frontend/visualizer_readmodel.py:276-292 | every JSON string is skipped to just behind its closing quote |
| JsonText.Balanced | frontend/visualizer_readmodel.py:297-312 | a value inside a container never changes the depth: brackets and quotes inside strings do not count |
| JsonText.ValueSkipped | frontend/visualizer_readmodel.py:294-319 | where skipping ends for every JSON value in every text around it |
| JsonText.SkippedExactly | frontend/visualizer_readmodel.py:294-319 | the index is just past the value exactly if it is no scalar, or a stop character or the end follows |
| JsonText.CarriageReturnSkipped | frontend/visualizer_readmodel.py:313-319 | behind `1` the index is past the carriage return |
| JsonText.ValueThenWs | frontend/visualizer_readmodel.py:270-319 | before a legal delimiter, skipping the value and then whitespace arrives at the delimiter |
| SnapshotScan.ScanGraphSections | frontend/visualizer_readmodel.py:322-407 | the scan loops compute the specified counts, spans and errors |
| SnapshotShape.ScanAccepts | frontend/visualizer_readmodel.py:322-396 | for every text, well-formed or not: no snapshot without an opening brace; otherwise sections exactly if members follow with keys, colons, values and delimiters, up to a brace or the end of the text |
| SnapshotTheorems.ArrayCounted | frontend/visualizer_readmodel.py:355-378 | a structural array yields its true length and ends right behind its bracket |
| SnapshotTheorems.SnapshotScanned | frontend/visualizer_readmodel.py:322-407 | for every rendering of an object every member is recorded in turn |
| SnapshotTheorems.StructuralFieldScanned | frontend/visualizer_readmodel.py:322-407 | each structural field gets the true length and exactly the text of its last array, or no span if it has none |
| SnapshotTheorems.FastPathAgrees | frontend/visualizer_readmodel.py:428-433 | the list loaded from the span equals that of the full parse exactly if the field is absent or its last member is an array |
| SnapshotTheorems.FastPathDiffers | frontend/visualizer_readmodel.py:428-433 | it differs on `{"calls":{}}` and on `{"calls":[],"calls":{}}` |
| SnapshotRecord.ExtractRunData | frontend/visualizer_readmodel.py:485-515 | the functions are the dictionaries in order with all entries but the source; an id has an embedded source exactly if some dictionary with it has a non-empty string, and then the file, first and last line and text of the last such one; and the other four lists |
| SnapshotRecord.RecordsAgree | frontend/visualizer_readmodel.py:485-738 | functions, sources, calls, resources, interactions and traces are those of the full parse if and only if each list field is absent or ends in an array, or, for the functions, ends in an object or string and no element of its last array in the JSON is an object |
| SourceMeta.MetaItem | frontend/visualizer_readmodel.py:453-478 | the loop over one object's members |
| SourceMeta.WalkOn | frontend/visualizer_readmodel.py:447-481 | one turn of the outer loop |
| SourceMeta.MetaMembersRead | frontend/visualizer_readmodel.py:453-476 | for every rendering of an object the walk records the value text of the wanted fields and stops at the closing brace |
| SourceMeta.WalkEndsIff | frontend/visualizer_readmodel.py:436-482 | the walk over an array ends exactly if every element followed by a comma is an object, and then returns the fields of all objects in order |
| SourceMeta.NumberFirstNeverEnds | frontend/visualizer_readmodel.py:436-482 | over `[1,{}]` it never ends |
| CallTree.BuildRecursive | call_graph/call_graph.py:706-783 | the recursion with its copied visited sets terminates on cyclic graphs and builds the specified tree |
| CallTree.BuildSite | call_graph/call_graph.py:739-772 | the children of one call site: macro node, one child per callback, or one child |
| CallTree.BuildCallTrees | call_graph/call_graph.py:699-789 | one tree for every function with call sites |
| CallTree.PathSearch.constructor | call_graph/call_graph.py:797-803 | empty accumulators |
| CallTree.PathSearch.Dfs | call_graph/call_graph.py:797-824 | appends the node's paths and restores `curr_path` |
| TreeSearch.TreeSearchIsExact | call_graph/call_graph.py:797-824 | in every tree, macro and callback nodes included: exactly the paths to the first node named `required_func`, once each, in depth-first order |
| CallTree.UniqueIdIs | call_graph/data_classes.py:53-57 | functions of the project share an id exactly if they share file and name |
| CallTreePaths.PathSearchIsExact | call_graph/call_graph.py:699-824 | exactly the walks on the call graph from the root that expand no function twice and end at the first place of that name, once each and in order: from a call site to its callee, once for each callback, or to its macro and on to the expansion, and from a function called with a callback to that; each path shows functions, callbacks and lines of its walk |
| Labels.ProcessWholeString | parser/parser_files.py:155-171 | the loop over the blocks picks the first two, empty ones not counting |
| LabelReading.ChooseIs | parser/parser_files.py:155-171 | the first block is the first that is not empty, the second the first such behind it; failing that, an empty one if there is any |
| LabelReading.ParseIntIff | parser/parser_files.py:110-138 | a text is read as a number exactly if it spells one: spaces, a sign, groups of digits with single underscores between them |
| LabelReading.FirstBlockIs | parser/parser_files.py:110-129 | a first block with a colon is a file and a line, one that spells a number a line, any other a file |
| LabelReading.SecondBlockIs | parser/parser_files.py:131-142 | a second block is a range if both ends spell numbers |
| Labels.LabelRoundTrip | call_graph/data_classes.py:26-67 | the three label shapes read back as the same file, line, name and definition range |
| Labels.ExternalWithoutLine | call_graph/data_classes.py:54-67 | an external label without a line reads its range as a position, or has none |
| Labels.RoundTripIff | parser/parser_files.py:110-171 | the label reads back exactly if the node is internal or printed with a line |
| ValueStatus.ClassifyRecords | value_flow/status.py:68-108 | every record gets what all alternatives of its argument prove together, in whatever order groups are visited |
| Classification.StatusIff | value_flow/status.py:53-99 | no target, external, run-time or resolved exactly if all alternatives are no target; all external; all literal or from run-time data with one of the latter or two different values; all one literal |
| Classification.SetIdIs | value_flow/status.py:91-101 | a run-time set has the one id that its alternatives name, or else one made from site and argument; nothing else has one |
| Classification.SamePosition | value_flow/status.py:38-50 | without site ids, records are alternatives exactly if file, line, target and argument agree |
| ValueStatus.ResolvedIffUnanimous | value_flow/status.py:79-90 | a group is resolved exactly if all its alternatives spell one literal constant |
| ValueStatus.ExactIff | discovery_index.py:569-613 | a row is exact exactly if its group is unanimous and the target takes such a value |
| Classification.RowIs | discovery_index.py:569-613 | the row has no target exactly for the resource `none`, is external or dynamic exactly if the alternatives are, exact exactly if they are one literal that the resource takes, and keeps the value except without a resource or target |
| ValueStatus.ExactIsSingleValued | discovery_index.py:569-613 | two exact records of one site and argument carry the same value |
| ValueStatus.OrderOfRecordsIrrelevant | value_flow/status.py:68-108 | neither the order nor repetition of records matters |
| DiscoveryRows.Dedupe | discovery_index.py:733-773 | the dictionary loop computes the merged rows, stably sorted |
| DiscoveryRows.DedupeMerges | discovery_index.py:733-773 | one row per key, with the first row's fields and the sum of the path counts, in the output order |
| Discoveries.OneRowPerDiscovery | discovery_index.py:733-760 | two facts are one discovery exactly if thirteen fields agree; each has one row, with the first one's fields and the paths of all |
| Discoveries.RowsInOrder | discovery_index.py:761-773 | rows come by file, line, argument and target of the call, file and line of the source, value, and name of the status |
| Discoveries.TiesKeepOrder | discovery_index.py:761-773 | rows that tie come in the order of the first facts |
| DiscoveryRows.PathsConserved | discovery_index.py:739-760 | no discovery loses or gains paths |
| DiscoveryRows.TotalConserved | discovery_index.py:739-760 | the total path count is preserved |
| DiscoveryRows.DedupeIdempotent | discovery_index.py:733-773 | deduplicating twice changes nothing |
| WrapperAliases.MarkInternalAliases | discovery_index.py:874-905 | an exact row inside a wrapper becomes an internal alias exactly if an exact and resolved row of a call of the wrapper has its operation and value; every row inside a wrapper says so in its metadata, and nothing else changes |
| WrapperAliases.ExactSurvives | discovery_index.py:874-905 | with acyclic wrappers an aliased row leads, along wrappers of wrappers, to a row with the same operation and value that stays exact |
| WrapperAliases.ExactKeptIffAcyclic | discovery_index.py:874-905 | no exact value is ever lost if and only if no wrapper is, through others, its own target |
| WrapperAliases.PromotionSurvives | discovery_index.py:131-905 | if moreover the covering rows may enter the exact indexes, an operation and value that may enter them still may after marking |
| WrapperAliases.PromotionsKeptIffAcyclic | discovery_index.py:131-905 | on all rows whose covering rows are exact, in the process and of a promotable reachability, what may enter the exact indexes still may after marking if and only if no wrapper is, through others, its own target |
| WrapperAliases.PromotionsKeptIffNoWrappers | discovery_index.py:131-905 | on all rows whatever, if and only if there are no wrappers |
| WrapperAliases.AcyclicLoses | discovery_index.py:874-905 | two rows and one wrapper, which is no cycle: a value may enter the exact indexes before marking and not afterwards |
| WrapperAliases.MarkKeepsDistinct | discovery_index.py:889-905 | marking never makes two rows the same discovery |
| Evidence.MakeSiteIndex | discovery_index.py:616-625 | the dictionary holds the inventory sites of every key and position in order |
| Evidence.JoinIsAtPosition | discovery_index.py:628-643 | a joined site lies at the record's position and takes its argument whenever the inventory has it |
| RowContents.JoinIs | discovery_index.py:616-643 | a record joins the first inventory site for its argument; if there is none, the only site of its call; otherwise none |
| Evidence.ReadRecords | discovery_index.py:801-869 | the rows of all records and exactly the covered keys |
| RowContents.EvidenceRowIs | discovery_index.py:646-866 | every field of a record's row: from the record, the joined site and the target, its reachability, its metadata, and its status from all alternatives |
| RowContents.MissingRowsAre | discovery_index.py:679-730 | every field of the rows of uncovered sites, in inventory order |
| Evidence.UnreachableFacts | discovery_index.py:679-730 | one row for each uncovered site |
| Evidence.EverySiteIsShown | discovery_index.py:776-871 | every inventory site has a row in the output, and an unreachable one exactly if no record joined it |
| Evidence.OutputKeepsPaths | discovery_index.py:776-871 | the output carries exactly the records' paths |
| Evidence.OutputIsDistinct | discovery_index.py:776-871 | no two rows of the output are the same discovery |
| Evidence.JoinByOwnArgument | discovery_index.py:616-643 | the argument of a joined site joins the same site again, so the key of a row determines its site |
| Evidence.OutputStaysExact | discovery_index.py:776-871 | with acyclic wrappers, what a record makes exact is exact in the output |
| Evidence.OutputPromotes | discovery_index.py:776-871 | if moreover the covering rows may enter the exact indexes, what the first record of a discovery promotes is promoted in the output |
| Evidence.ValueflowRecordsToFacts | discovery_index.py:776-871 | the whole conversion, with these guarantees |
| Promotion.LaunchedIff | discovery_index.py:776-1125 | the output launches a package at a line exactly if a record does that is the first of its discovery, is exact, in the process and of a promotable reachability, and is not covered by a call of the wrapper it is in |
| Promotion.ForkprocIndexes | discovery_index.py:776-1125 | from the records to the two inverse indexes, which hold exactly those launches |
| Promotion.LaunchedByAny | discovery_index.py:776-1125 | in a run with a recognised root, and with one function to a line, it need not be the first record: every uncovered launch is indexed |
| Promotion.FirstDecides | discovery_index.py:739-760 | two functions on one line, one of them a wrapper: the order of their records decides whether the line is indexed |
| Promotion.OutsideCallHides | discovery_index.py:776-1125 | a recorded launch inside a wrapper is indexed by itself, and in no index once a call of the wrapper from outside the process is recorded as well |
| Aggregates.BuildForkproc | discovery_index.py:1063-1125 | both forkproc indexes hold exactly the exact in-process launches of a reachability that promotes in this run, by line and package, and are inverse to each other |
| Aggregates.MergeCallers | aggregate_index.py:112-124 | the sorted union of the callers; keys with empty lists survive |
| Aggregates.MergeEntries | aggregate_index.py:127-148 | the sorted union of the entries; keys without entries do not |
| Aggregates.SameElementsSameMerge | aggregate_index.py:86-172 | the merge does not depend on the order or repetition of the process indexes |
| Aggregates.MergeAssociative | aggregate_index.py:86-172 | merging a merge with further indexes is merging them all at once |
| Aggregates.MergeKeepsInverse | aggregate_index.py:112-148 | if every process's indexes are inverse, the merged ones are |
| IncludePaths.ParseStr | makefile_resolver/extract_includes.py:243-245 | the path string of a path reads back as the path, so different paths have different strings |
| IncludePaths.SpelledPathIsFound | makefile_resolver/extract_includes.py:40-59 | an include text that spells the absolute path of a file finds that file from everywhere |
| IncludeIndex.BuildIndex | makefile_resolver/extract_includes.py:21-38 | the loops over roots and files compute the two tables |
| IncludeIndex.FirstRootWins | makefile_resolver/extract_includes.py:29-36 | a relative path is known exactly if some root has such a source file, and is answered with the first such root's |
| IncludeIndex.BuiltIsValid | makefile_resolver/extract_includes.py:21-38 | the tables hold absolute paths of files |
| IncludeClosure.FindInclude | makefile_resolver/extract_includes.py:40-59 | the three rules of `find`, with the loop over the files of one name |
| IncludeNames.RuleOne | makefile_resolver/extract_includes.py:40-44 | the file that the text leads to from the directory of the including one comes first |
| IncludeNames.RuleTwo | makefile_resolver/extract_includes.py:46-48 | then the source file of that relative path below the first root that has one |
| IncludeNames.RuleThree | makefile_resolver/extract_includes.py:50-59 | then, of the files of that name in the order of roots and listing, the first whose path string ends with the text, and the first of all if none does |
| IncludeNames.RuleThreeMisses | makefile_resolver/extract_includes.py:50-59 | none exactly if no root has a source file of that name |
| IncludeNames.NamelessMisses | makefile_resolver/extract_includes.py:50-59 | none for a text that names nothing |
| IncludeClosure.ReadLines | makefile_resolver/extract_includes.py:215-249 | one file's lines: every found path is tracked, the dependencies are, line by line, the keys of the paths found, nothing tracked is lost |
| IncludeClosure.OverwritesIff | makefile_resolver/extract_includes.py:238-246 | a step loses an earlier entry exactly when the include text and the path string are keys already |
| IncludeClosure.TurnsKeep | makefile_resolver/extract_includes.py:196-250 | in every turn everything tracked is reachable from the seeds and visited or waiting, keys are known, and recorded dependencies are keys |
| IncludeClosure.TurnsKeepFaith | makefile_resolver/extract_includes.py:196-250 | if the seeds that are files are absolute, in every turn each visited file has an entry that lists the keys of exactly the paths its lines find |
| IncludeWalk.DottedIffGrowing | makefile_resolver/extract_includes.py:40-44 | an include cycle by rule 1 makes paths longer exactly if one of its texts uses `..` |
| IncludeWalk.CycleNeverEnds | makefile_resolver/extract_includes.py:196-250 | such a cycle keeps the worklist from ever being empty |
| IncludeWalk.Charge | makefile_resolver/extract_includes.py:40-59 | without one, each growing step of a path is charged to a file of its own, so paths stay short |
| IncludeWalk.WalkEndsIff | makefile_resolver/extract_includes.py:196-250 | the walk ends if and only if no reachable file includes itself through files found relative to each other, once by `..` |
| IncludeWalk.Resolve | makefile_resolver/extract_includes.py:162-252 | then the loop ends with exactly the reachable paths tracked and recorded dependencies that are keys; with absolute seeds each key leads back and every readable path lists the keys of exactly what it includes |
| IncludeWalk.TwoFilesNeverEnd | makefile_resolver/extract_includes.py:196-250 | two headers that include each other by `..`: the walk never ends, and two tracked paths are one file |
| IncludeKeys.AbsoluteSeedsLeadBack | makefile_resolver/extract_includes.py:236-246 | if the seeds that are files are absolute, `combined[path_to_key[p]]` is `p`, in every turn |
| LostKeys.KeysLeadBackIff | makefile_resolver/extract_includes.py:162-252 | whatever other files there are, whatever files include, and with the index of whatever include roots, this holds in every turn if and only if the seeds that are files are absolute |
| LostKeys.MainLosesAnEntry | makefile_resolver/extract_includes.py:236-246 | the seed `main.c`, given relatively, with three small files under it and one include root with a header: an entry is lost |

## Left out

- Parsing: tree-sitter, regular expressions and C text. Formulas start from the syntax tree and from placeholder tokens, snapshots and labels from characters, `int` in labels from ASCII text.
- Digests are an injective function parameter; clocks are a parameter `now`; `json.loads` and the literal, path, package and number recognisers of the evidence code are function parameters.
- SummaryRun.RunKeeps: a run is a state machine over the pieces of work between two awaits; a model reply is an arbitrary failure or text, which is what `_clean_summary` leaves of it, wiki errors are absorbed, and the fairness of the semaphore, checkpoints, and writing the cache file are not modelled.
- Layering.DependencyLayers: `None` stands for the `KeyError` on an unknown callee.
- Layering.SortByComponent: components are disjoint, so comparing two of them is comparing their first ids.
- CallTreePaths.PathSearchIsExact: path elements are tree nodes, not printed labels.
- CallTree.BuildRecursive: trees are values; sharing of mutable nodes is not captured.
- SnapshotScan.ScanGraphSections: scalar members are recorded as spans of their text.
- SnapshotRecord.RecordsAgree: the scalar fields of the record and the process are not part of it; JSON parsing and `str` are function parameters.
- SummaryPrompt.PromptTextShows: the rest of the prompt, and the two fixed texts for missing summaries, are left open.
- SourceMeta.WalkEndsIff: as the outer loop may run forever, it is modelled turn by turn; field values are spans of their text.
- Evidence.ValueflowRecordsToFacts: metadata values are text, and reachability inputs are given.
- Promotion.ForkprocIndexes: the other exact indexes of a process are filled from the same rows in the same way and are not modelled.
- ReducedCalls.WithoutDetoursExact: the condition on the calls suffices and is not necessary; the exact condition is on the order.
- Aggregates.MergeEntries: the access, dynamic and evidence merges are instances with other entry types; the order of keys in the written files, where `01` and `1` tie, is not modelled.
- IncludeIndex.BuildIndex: what `rglob` lists below each root is given, in any order; roots are resolved paths, as `makefile_resolver.py` makes them. The directory that `resolve` appends (`extract_includes.py:186`) is one of them, or adds nothing where it does not exist.
- IncludeWalk.Resolve: any index of absolute paths of files, and the lines of the files, are given; there are no symbolic links, and paths that start with exactly two slashes are not modelled. A path may have any length, where a system has a limit; so the loop is a method only where the walk ends, and `IncludeClosure.Turns` models it turn by turn everywhere.
- LostKeys.KeysLeadBackIff: seed names do not start with a slash, as the makefile resolver makes them from file and directory names; two seeds never share a name, as in a dictionary.
- CInt.EvalAgreesWithC: unsuffixed integer and character literals of type `int`; wider and unsigned types are outside the world of the theorem.
- Formula: huge shifts and literals that exhaust memory, and Python's limit on the digits of a decimal literal.
- `_parse_c_int` and the confidence heuristics of the discovery index, `legacy_answers_to_facts`, the cross-process rows, and the access and domain graph payloads.
- The LLM, wiki and HTTP clients, prompts, file persistence, locks, threads, the Makefile parser, the user interface and reports.
