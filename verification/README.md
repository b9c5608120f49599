# Verification model of the agent operating system core

A Dafny model of the parts of the system where one call is not the whole story: searches over cyclic graphs,
state machines that crash and restart, transformations that must keep a meaning. `dafny verify dfyconfig.toml`
checks all of it.

* **Root-cause engine** (`Walks`, `BestPath`, `Bfs`, `Layers`, `CausalGraph`, `HopChains`, `RootCauseRanking`,
  `CausalEngine`, `CausalAnswers`, `BoundedBfs`): the branch-and-bound propagation search, the breadth-first searches, the posterior and
  the ranking, over any finite graph with cycles and parallel edges.
* **Statistics store** (`Sums`, `CausalStore`, `ConcurrentRecording`): recorders and queries, and every interleaving of
  recorders that hold one lock at a time.
* **Context window** (`ContextWindow`, `ContextLayout`): cutting a conversation without tearing tool calls from their answers.
* **JSON extraction** (`Text`, `JsonExtractor`): the brace scanner against a printer for RFC 8259.
* **Configuration** (`ConfigLayers`, `OverrideSpelling`, `EndpointBinding`, `EndpointKeys`): merged layers, keys folding in arbitrary
  order, and which API key ends up beside which base URL.
* **Perception store** (`Perception`, `PerceptionDelivery`, `PerceptionEviction`, `PerceptionWindow`, `PerceptionStore`), **checkpoints**
  (`Checkpoints`, `CheckpointOrder`, `CheckpointReach`, `PdcaCheckpoint`), **catalog
  backfill** (`CatalogBackfill`), **event routing** (`Bits`, `EventRouting`), **5W2H records** (`FiveW2HRecord`,
  `FiveW2HUpdates`, `FiveW2HFills`, `FiveW2HSections`, `FiveW2H`).

Objects that change in place are classes whose methods are proved against functions of the old state; the theorems are
lemmas about those functions. `Sorting` stands for the stable sorts of the Rust standard library, `JsonValue` for parsed
JSON.

## What the proofs found

* Where the code does less than one would like, the exact condition is proved, with an input that misses it:
  the slice panic of `compress_messages` (`ContextWindow.PanicsExactlyWhen`, `ContextWindow.PanicExample`), event types
  registered after a mask was combined (`EventRouting.MaskPassesExactlyWhen`, `EventRouting.LateTypeExample`), the panic
  of a real backfill (`CatalogBackfill.PanicsExactlyWhen`, `CatalogBackfill.PanicExample`), and what is still reported
  missing after the 5W2H defaults (`FiveW2HUpdates.MissingAfterDefaults`, `FiveW2HUpdates.UnrecordedExample`).
* Extraction gives back a printed object exactly when it is the fenced block that wins, or no block wins and it stands at
  the first opening brace (`JsonExtractor.RoundTrip`); a fenced block may sit inside a string of the object itself
  (`JsonExtractor.FencedKeyWins`, `JsonExtractor.FencedKeyExample`). The comment at `src/batch/extractor.rs:222` speaks of
  objects or arrays; outside a fence the code extracts objects only.
* A resume reads the first hundred envelopes in key order, and keys do not follow time, so a completed step can be
  forgotten: exactly when none of its envelopes is within reach (`Checkpoints.StepStaysCompletedExactlyWhen`,
  `CheckpointReach.ForgottenPlanExample`).
* A resume orders envelopes by creation time and then by key. If the clock stands still or goes back between the first
  writes of two steps, they can come back in the wrong order, and the envelope written last need not be the last
  successful one. `CheckpointOrder.CompletedOrderExactlyWhen` and `CheckpointOrder.LastSuccessfulExactlyWhen` say exactly
  when; `CheckpointOrder.StalledClockExample` is an input.
* Evicting old deduplication stamps is invisible exactly when no write reads the clock more than 60 seconds behind an
  earlier eviction (`PerceptionEviction.EvictionsInvisibleExactlyWhen`); a clock that never goes back is enough.
* `src/core/perception_store.rs:110` says the same source and content is not written again within 60 seconds. That holds
  under the same condition, apart from clears (`PerceptionWindow.AcceptedWritesAreApart`); for any clock,
  `PerceptionWindow.AcceptedAgainExactlyWhen` says exactly when a repeated write is accepted, and
  `PerceptionWindow.TwiceAtOnceExample` is an input that is accepted twice at one instant.
* `src/core/perception_store.rs:93` says global entries are visible to all tasks; the code marks them consumed on the
  first take of any task (`Perception.GlobalsGoToTheFirst`). The model follows the code.
* `src/core/five_w2h.rs:192` says only non-empty values are applied; `who`, `how` and `how_much` are replaced even by an
  empty object (`FiveW2HUpdates.MergeReplaces`, `FiveW2HUpdates.EmptySectionsErase`). The model follows the code.
* `src/core/five_w2h.rs:191` says the sections of an update use the camel-case field names of the detail structures. The
  structure `HowDetail` serializes its plan as `planIri`, `merge_updates` reads `planIRI`, so the plan is lost
  (`FiveW2HSections.HowIsTakenOver`). The model follows the code.
* The comment above `extract_candidates` says edges are followed backwards; the code follows them from source to target.
  `max_propagation_probability` does the same, so a candidate need not reach its observation: along a single dependency
  it does not (`CausalGraph.CandidateDownstreamExample`). All statements are in the code's own direction.

## Model

| member | source | states |
|---|---|---|
| CausalEngine.CausalEngine.DfsPropagate | src/causal/engine.rs:226-263 | the branch-and-bound search returns the larger of the best so far and the best product over all simple completions of the current path, pruned or not; the visited set comes back unchanged; it terminates on cyclic graphs |
| CausalEngine.CausalEngine.MaxPropagationProbability | src/causal/engine.rs:196-224 | the query returns exactly `MaxPropagation`: 1 for a node to itself, 0 for unregistered ends, else the optimum over simple paths along the four propagation types |
| CausalGraph.MaxPropagationIsOptimal | src/causal/engine.rs:196-263 | no walk at all, cyclic ones included, has a larger product; the optimum is attained by a simple path; it is positive exactly when the target is reachable |
| CausalGraph.PropagationTriangle | src/causal/engine.rs:196-260 | prob(a,b) * prob(b,c) is at most prob(a,c) for any three nodes, registered or not |
| CausalAnswers.PropagationIsBestWalk | src/causal/engine.rs:196-263 | between registered nodes the query is the attained maximum, over all walks along Prerequisite, Composition, Extends and Related edges from source to target, of the product of count shares, one half where nothing was recorded; 0 without such a walk or with an unregistered end, 1 from a node to itself |
| Walks.CutCycles | src/causal/engine.rs:226-263 | every walk has a simple walk between the same ends whose product is at least as large |
| Walks.CutProduct | src/causal/engine.rs:226-263 | cutting one cycle out of a walk does not lower its product |
| BestPath.BestIsUnique | src/causal/engine.rs:226-263 | the optimum is determined by being an upper bound that is attained, or 0 without a path |
| BestPath.BestViaStep | src/causal/engine.rs:244-258 | trying one more neighbour takes the maximum with the edge weight times the optimum from there |
| BestPath.BestBeatsEveryWalk | src/causal/engine.rs:226-263 | the best simple path beats every walk, and is 0 exactly when there is no walk |
| CausalEngine.PruningIsSafe | src/causal/engine.rs:236-238 | a branch cut because its product is not above the best so far has no completion above it |
| CausalEngine.AdjacencyOf | src/causal/engine.rs:208-217 | the adjacency map lists exactly the arcs of the selected edge types |
| CausalEngine.CausalEngine.ExtractCandidates | src/causal/engine.rs:109-156 | candidates are exactly the nodes reachable over dependency edges from an observed skill, minus the observed skills, each once |
| CausalAnswers.CandidatesAlongDependencies | src/causal/engine.rs:109-156 | a candidate is an unobserved node some observed skill leads to along Prerequisite, Extends and Generalization edges, from source to target |
| CausalGraph.CandidateDownstreamExample | src/causal/engine.rs:104-156 | with one dependency from an observed skill, the candidate is its target, and its propagation probability back to the observed skill is 0 |
| CausalEngine.CausalEngine.BfsShortestPath | src/causal/engine.rs:305-344 | none exactly when the target is unreachable; otherwise a chain of real edges with the effective probability of each, of minimum hop count and without a repeated node |
| HopChains.LinksOf | src/causal/engine.rs:271-281 | the typed adjacency map lists exactly the edges with their parsed link types |
| CausalAnswers.HopsCarryRecordedWeights | src/causal/engine.rs:318-333 | each hop of a returned chain has the type of a real edge from the node before it, and the count share recorded for it, or one half |
| CausalAnswers.LinkTypesByName | src/causal/engine.rs:383-393 | a link type is read from its own name, and anything else reads as related |
| HopChains.FirstFoundIsShortest | src/causal/engine.rs:318-336 | the first chain that reaches the target is shorter than or as short as every walk there |
| HopChains.ShortestIsSimple | src/causal/engine.rs:305-344 | a shortest walk repeats no node |
| Bfs.FrontierCutsWalk | src/causal/engine.rs:318-340 | every walk that leaves the expanded nodes passes a discovered, unexpanded one no further from the root than its position |
| Layers.UndiscoveredIsFar | src/causal/engine.rs:318-340 | a node not yet discovered while level d is expanded is more than d hops away |
| Layers.ExhaustedMeansUnreachable | src/causal/engine.rs:342-344 | when the queue runs empty, what was not discovered cannot be reached |
| CausalEngine.CausalEngine.ReconstructPaths | src/causal/engine.rs:266-303 | one shortest path per observation the candidate reaches, in the order observed |
| CausalEngine.CausalEngine.PathConfidence | src/causal/engine.rs:287-291 | the confidence of a path is the product of the effective probabilities along it |
| CausalAnswers.ConfidenceIsProduct | src/causal/engine.rs:266-303 | the confidence of an explaining path is the product of the count shares along it, and its end is another observed skill |
| CausalGraph.PathConfidenceIsBounded | src/causal/engine.rs:266-303 | when every hop runs along a propagation edge and both ends are registered, the confidence of a path is at most the optimum |
| CausalEngine.CausalEngine.ComputePosterior | src/causal/engine.rs:159-192 | prior times one factor per observation: the propagation probability, or 0.01 if there is none |
| CausalAnswers.PosteriorOfNothing | src/causal/engine.rs:158-191 | without observations the posterior is the stored prior, or 0.001 |
| CausalAnswers.PosteriorOneMore | src/causal/engine.rs:166-191 | one more observation leaves the posterior as it is if it is of the candidate itself, divides it by 100 if no propagation walk leads from the candidate there, and else multiplies it by the largest product over such walks |
| RootCauseRanking.PosteriorIsPositive | src/causal/engine.rs:159-192 | every posterior lies in (0, 0.999] |
| CausalEngine.CausalEngine.InferRootCause | src/causal/engine.rs:48-103 | at most top_k distinct candidates in non-increasing confidence, each scored by its posterior; if a candidate is left out, there are exactly top_k results and none of them is less probable than it |
| RootCauseRanking.TopOfSorted | src/causal/engine.rs:92-102 | a prefix of the sorted candidates is the best of them |
| CausalStore.CausalModelStore.RecordObservation | src/causal/store.rs:51-81 | each of the three maps gets exactly its one new count |
| CausalStore.CausalModelStore.RecordInIndex | src/causal/store.rs:52-63 | the count of the skill under the error is one higher, a new skill goes to the end of the list |
| CausalStore.CausalModelStore.RecordInProfile | src/causal/store.rs:65-70 | the count of the error under the skill is one higher |
| CausalStore.CausalModelStore.RecordPropagation | src/causal/store.rs:84-88 | the count of the link is one higher |
| CausalStore.IndexRecordedCounts | src/causal/store.rs:52-63 | recording changes the index count of its own pair by one and of no other, and lists no skill twice under an error |
| CausalStore.ProfileRecordedCounts | src/causal/store.rs:65-70 | recording changes the profile count of its own pair by one and of no other, and the grand total by one |
| CausalStore.CausalModelStore.SetPrior | src/causal/store.rs:92-96 | the prior is stored clamped to [0.001, 0.999] |
| CausalStore.CausalModelStore.UpdatePriorsFromSuccessRates | src/causal/store.rs:99-111 | each skill gets its clamped share of all failures, the last entry for a skill counting |
| CausalStore.ClampedIsNearest | src/causal/store.rs:92-96 | clamping takes the nearest number from 0.001 to 0.999 |
| CausalStore.FailuresAddUp | src/causal/store.rs:99-111 | the failures of a list add up, each entry by what its success rate falls short of 1 |
| CausalStore.ShareOfLastEntry | src/causal/store.rs:99-111 | a listed skill has the clamped share of all failures that its last entry makes up |
| CausalStore.UnlistedKeepTheirPrior | src/causal/store.rs:99-111 | an unlisted skill keeps the prior it had, or none |
| CausalStore.CausalModelStore.Prior | src/causal/store.rs:183-185 | the stored prior or 0.001; always in [0.001, 0.999] |
| CausalStore.CausalModelStore.FindSkillsByError | src/causal/store.rs:114-119 | a permutation of the skills recorded for the error with their positive counts, most frequent first, equal counts in order of first appearance |
| CausalStore.CausalModelStore.PropagationProbability | src/causal/store.rs:132-148 | the link count over all counts out of the source, 0 if nothing leaves it |
| CausalStore.CausalModelStore.OutgoingEdges | src/causal/store.rs:151-180 | each recorded edge out of the source once, with the weight the point query gives it |
| CausalStore.CausalModelStore.AllPropagationEdges | src/causal/store.rs:193-207 | each recorded edge once, with the weight the point query gives it |
| CausalStore.CausalModelStore.TotalObservations | src/causal/store.rs:210-216 | the sum of all profile counts |
| CausalStore.ProbabilityBounds | src/causal/store.rs:132-148 | every probability lies in [0, 1] and is positive exactly for recorded edges |
| CausalStore.WeightsSumToOne | src/causal/store.rs:132-207 | out of a source with recorded edges the weights lie in (0, 1] and sum to 1 |
| ConcurrentRecording.RunKeepsInv | src/causal/store.rs:51-88 | an invariant over every interleaving of any number of recorders, each taking its three locks one after the other |
| ConcurrentRecording.IndexLeadsByRecordersInBetween | src/causal/store.rs:51-81 | in every interleaving, index count minus profile count of a pair is the number of recorders between their first two steps |
| ConcurrentRecording.QuiescentStoreIsExact | src/causal/store.rs:51-81 | once all calls have returned, index and profiles are exact transposes that count every call, without duplicates, and the total is the number of calls |
| ConcurrentRecording.ReachableWeights | src/causal/store.rs:71-88 | in every reachable store the link counts are exactly what was recorded and the weights out of a source sum to 1 |
| BoundedBfs.BfsFrom | src/causal/fused.rs:290-322 | exactly the nodes at shortest distance 1 to depth from the seed, each once, nearest first, never the seed; the unwrapped pop never meets an empty queue |
| BoundedBfs.BallIsComplete | src/causal/fused.rs:290-322 | what is listed after that many levels is the whole ball |
| ContextWindow.CompressMessages | src/core/context_compressor.rs:226-281 | up to the limit nothing changes; above it the result is the assembled list, a summary is present exactly when the summarized part has something to report, and the slice panic happens exactly when `Panics` says |
| ContextLayout.MiddleKept | src/core/context_compressor.rs:232-257 | of the n messages between the system message and the preserved end the last k are kept, k being the whole part of n times the ratio: none if k is 0 or less, all if it reaches n; if the first of them answers a call made among the n, they are kept from that call on |
| ContextLayout.RecentStartIs | src/core/context_compressor.rs:232-240 | the preserved end starts preserve_recent messages from the end, or at the last earlier message that makes the call its first message answers |
| ContextLayout.ResultFront | src/core/context_compressor.rs:261-281 | the result is the system message, the summary as a user message if there is one, and as many messages as there are from the cut on |
| ContextLayout.ResultRest | src/core/context_compressor.rs:261-281 | counted from the end, each kept message is as it was, but a tool message may have become a plain user message |
| ContextLayout.ShippedSettingsExample | src/core/context_compressor.rs:226-281 | with the shipped settings 25 user messages shrink to 10 and perhaps a summary |
| ContextWindow.AdjustBoundaryForToolCalls | src/core/context_compressor.rs:286-305 | the boundary moves to the last earlier message that holds the call the boundary message answers, and stays otherwise |
| ContextLayout.BoundaryMovesExactlyWhen | src/core/context_compressor.rs:286-305 | a boundary moves exactly when its message is an answer to a call some earlier message makes, and then to the last such message |
| ContextWindow.AdjustedBoundaryIsClean | src/core/context_compressor.rs:286-305 | on a well-grouped history an adjusted boundary never falls inside a group of an assistant message and its answers |
| ContextWindow.WellGroupedSlice | src/core/context_compressor.rs:286-305 | a stretch of a well-grouped history that starts outside a group is well grouped |
| ContextLayout.GroupExample | src/core/context_compressor.rs:286-305 | a question, a call and an answer are well grouped exactly when the answer names the call |
| ContextWindow.GroupsStayWhole | src/core/context_compressor.rs:226-305 | on well-grouped histories, whatever the keep ratio, the result is the optional system message, the optional summary and one unmodified suffix of the input: no group is split and the orphan pass changes nothing |
| ContextWindow.RemoveOrphanedToolMessages | src/core/context_compressor.rs:310-343 | exactly the tool messages without an earlier assistant message naming their call become plain user messages; length and contents stay |
| ContextLayout.CleanedExactlyWhen | src/core/context_compressor.rs:310-343 | message by message: a tool message keeps its role exactly when an earlier assistant message makes the call it names, and nothing else changes |
| ContextWindow.CleaningLeavesNoOrphans | src/core/context_compressor.rs:310-343 | afterwards no tool message is an orphan, and a second pass changes nothing |
| ContextWindow.CompressionGuarantees | src/core/context_compressor.rs:226-343 | on any history: no longer than the input, every tool message answered for, and the contents of the last preserve_recent messages in order at the end |
| ContextWindow.PanicsExactlyWhen | src/core/context_compressor.rs:232-243 | the slice panic happens exactly with a leading system message and either no more messages than are preserved or a boundary call made by the very first message |
| ContextWindow.NoPanic | src/core/context_compressor.rs:232-243 | it never happens if preserve_recent is at most max_messages and the system message makes no calls |
| ContextWindow.PanicExample | src/core/context_compressor.rs:232-243 | it does happen for one system message when more messages are preserved than allowed |
| ContextWindow.SummarizeMiddleMessages | src/core/context_compressor.rs:346-393 | the summary is non-empty exactly when there is a tool call, a tool error or an assistant message of 51 to 199 bytes |
| ContextLayout.NoteworthyMessage | src/core/context_compressor.rs:346-393 | which single messages make a summary: tool calls of an assistant, a tool answer containing "error" or "Error", an assistant message of 51 to 199 bytes |
| ContextLayout.BytesAddUp | src/core/context_compressor.rs:346-393 | lengths count one to four bytes for each character |
| ContextWindow.SplitMiddle | src/core/context_compressor.rs:245-257 | the part to summarize and the part to keep, cut at the adjusted keep-ratio boundary |
| JsonExtractor.ExtractJson | src/batch/extractor.rs:223-261 | a fenced block, that is the text between the first opening fence and the first fence after it if it starts with a brace or bracket once trimmed, gives its trimmed content; else the shortest prefix from the first brace that is balanced outside strings, and nothing exactly when there is none; outside a fence only objects come out |
| JsonExtractor.FencedExactlyWhen | src/batch/extractor.rs:225-233 | a fenced block is a candidate exactly when the text splits around the first opening fence and the first fence after it, with a body that looks like JSON |
| JsonExtractor.ValueIsNeutral | src/batch/extractor.rs:236-258 | scanning any printed JSON value leaves the scanner where it was and never below its depth, by structural induction |
| JsonExtractor.PieceStaysInside | src/batch/extractor.rs:240-248 | every character or escape sequence of RFC 8259 section 7 keeps the scanner inside the string |
| JsonExtractor.ObjectIsShortestBalanced | src/batch/extractor.rs:236-258 | a printed object is the shortest balanced prefix of itself followed by anything |
| JsonExtractor.ExtractionUndoesPrinting | src/batch/extractor.rs:236-258 | for every object printed in any way RFC 8259 allows, in prose with no earlier brace, the one shortest balanced prefix is the printed object |
| JsonExtractor.RoundTrip | src/batch/extractor.rs:223-261 | a printed object anywhere in a text comes back exactly when the fenced block that wins is that object, or no block wins and the object stands at the first opening brace; with no earlier brace, and no opening fence or none that is closed, always |
| JsonExtractor.UnclosedIsNotFenced | src/batch/extractor.rs:225-233 | an opening fence without a later one is no block |
| JsonExtractor.UnclosedFenceExample | src/batch/extractor.rs:223-261 | an object after a fence that was never closed: no block, so the scan finds it |
| JsonExtractor.FencedKeyWins | src/batch/extractor.rs:223-233 | otherwise: whenever a fenced block that looks like JSON can stand in a key (no backtick, quote, backslash or control character in it), the object with that one key has the trimmed block as its fenced candidate, and not itself |
| JsonExtractor.FencedKeyExample | src/batch/extractor.rs:223-233 | a concrete such object, whose fenced candidate is a single brace |
| JsonExtractor.FencedBlockIsTrimmed | src/batch/extractor.rs:225-233 | a fenced block without inner fence gives back its trimmed content |
| JsonExtractor.FencedObjectComesBack | src/batch/extractor.rs:225-233 | a printed object with white space around it in a fenced block comes back exactly |
| Text.TrimSplits | src/batch/extractor.rs:229 | trimming removes white space at both ends and nothing else |
| ConfigLayers.LookupMerged | src/config/settings.rs:122-142 | what a path reads after merging one layer over another |
| ConfigLayers.OverridesApply | src/config/settings.rs:143-155 | explicit overrides win whatever order they are applied in, and leave unrelated settings alone |
| OverrideSpelling.NoncanonicalKeyedSections | src/config/settings.rs:238-265 | the refused sections are exactly those whose spelling is not canonical, all of them if the file is no object |
| OverrideSpelling.SectionAcceptedExactlyWhen | src/config/settings.rs:238-286 | a section is accepted exactly when no top-level key could mean it, or a single one could, spelled as the section, and every key beneath it that counts is its own lower case |
| OverrideSpelling.CanonicalExactlyWhen | src/config/settings.rs:267-286 | the keys of a value pass exactly when each that occurs in it, those of gateway.model_mapping apart, is its own lower case |
| OverrideSpelling.CanonicalFold | src/config/settings.rs:230-237 | below an accepted key, folding finds what an exact lookup finds, whatever the order of the entries |
| OverrideSpelling.AcceptedSectionFoldsExactly | src/config/settings.rs:238-286 | an accepted section folds to the text the file spells out, free-form `model_mapping` keys notwithstanding |
| OverrideSpelling.SameVerdict | src/config/settings.rs:238-286 | the check gives every listing of the same file the same verdict |
| OverrideSpelling.FoldOrderIsIrrelevant | src/config/settings.rs:230-286 | once the check has accepted a section in one listing, every load agrees on every string in it, whatever order it lists the keys in |
| EndpointBinding.AcceptedSectionLoadsAlike | src/config/settings.rs:291-306 | in particular on the base URL and the key of each binding |
| EndpointBinding.TwoSpellingsExample | src/config/settings.rs:230-237 | two spellings of one key do make the value depend on the order; the check refuses them |
| EndpointBinding.NormalFormExactlyWhen | src/config/settings.rs:1382-1390 | a base URL is its own normal form exactly when it is trimmed and ends in neither a slash nor `/v1` |
| EndpointBinding.NormalizeTwiceExactlyWhen | src/config/settings.rs:1382-1390 | normalizing twice gives the same as once exactly when white space, or a second version under a stripped one, is not left at the end |
| EndpointBinding.NormalizeTwiceExample | src/config/settings.rs:1382-1390 | normalizing is not idempotent: only one `/v1` is stripped |
| EndpointBinding.NormalizeIgnoresTrim | src/config/settings.rs:1382-1390 | surrounding white space does not change the normal form |
| EndpointKeys.SpellingsOfOneEndpoint | src/config/settings.rs:1382-1390 | white space around, slashes at the end and one version in either case make no difference: every such spelling of a base URL normalizes to it |
| EndpointBinding.BindDeploymentKeysToTheirEndpoints | src/config/settings.rs:344-415 | a binding overrides the key exactly when the endpoint moved, with the key stored in the override or an empty one |
| EndpointKeys.KeyOverriddenExactly | src/config/settings.rs:344-415 | the key is overridden with the one stored in the override, trimmed, empty if there is none, exactly when the environment does not set the base URL and the section is refused or its base URL is neither absent, blank nor a spelling of the deployment's; otherwise with the environment's key only |
| EndpointBinding.BuilderFromLayers | src/config/settings.rs:122-157 | deployment below override below legacy variables, then one explicit override per mapped variable, then the bindings |
| EndpointKeys.MappedVariableWins | src/config/settings.rs:143-155 | for each of the 22 mapped variables but the two keys: if it is set, the load reads it at its setting, whatever the layers, the legacy variables and the orders |
| EndpointKeys.EnvValueIsFirst | src/config/settings.rs:353-357 | a name reads as the first value the environment lists for it |
| EndpointKeys.LegacyExactlyThese | src/config/settings.rs:127-142 | the legacy variables are exactly those with the prefix that are neither mapped nor read by the process itself, each a setting at its words, in lower case |
| EndpointKeys.WordsSplit | src/config/settings.rs:127-142 | the words of a variable are what stands between underscores and dots |
| EndpointBinding.LegacyNeverAssigns | src/config/settings.rs:127-142 | a legacy `_`-split variable can hide a bound setting but never give it a value |
| EndpointBinding.LoadReads | src/config/settings.rs:122-157 | the base URL and key a finished load reads, for every order of variables and overrides |
| EndpointBinding.LeavingHomeIsMoving | src/config/settings.rs:363-385 | every override whose base URL would show through as another endpoint is recognised as moved |
| EndpointBinding.DeploymentKeyStaysWithItsEndpoint | src/config/settings.rs:334-415 | for every layer combination, environment and fold order, a load whose non-blank base URL is not the deployment's endpoint carries only the override's own key or an empty one |
| EndpointKeys.KeyReachesItsEndpoint | src/config/settings.rs:334-415 | conversely, where the environment sets the base URL or the accepted section leaves the endpoint alone, the load reads the environment's key, and without one, unless a legacy variable hides it, the key of the merged layers, the deployment's if the override says nothing about it |
| EndpointKeys.RepeatedBaseExample | src/config/settings.rs:381-385 | an override that repeats the deployment's base URL: the load reads the deployment's key |
| PerceptionStore.PerceptionStore.Store | src/core/perception_store.rs:111-126 | one deduplicated write, as one step of the store |
| PerceptionStore.PerceptionStore.StoreGlobal | src/core/perception_store.rs:129-147 | one deduplicated global write |
| PerceptionStore.PerceptionStore.ClearGlobal | src/core/perception_store.rs:150-158 | global entries go, and with them the stamps of the workspace monitor |
| PerceptionStore.PerceptionStore.TakePerceptionText | src/core/perception_store.rs:164-212 | the rendered entries of `Delivered`; every unconsumed global and task entry is marked |
| PerceptionStore.LinesJoined | src/core/perception_store.rs:210-211 | the text has one line for each entry, in order |
| PerceptionStore.RenderedAs | src/core/perception_store.rs:64-73 | a line names the source, the content, and where there are details |
| PerceptionStore.PerceptionStore.HasNew | src/core/perception_store.rs:215-236 | whether a global or task entry is unconsumed |
| PerceptionDelivery.NewExactlyWhenWaiting | src/core/perception_store.rs:215-236 | there is something new exactly when a take would deliver something |
| PerceptionStore.PerceptionStore.EvictDedupCache | src/core/perception_store.rs:245-249 | stamps of 120 seconds and older go |
| Perception.TakeHandsOutTheBest | src/core/perception_store.rs:164-212 | a take delivers min(10, pending) entries, ordered by priority then age, none worse than one it withholds, and nothing is new afterwards |
| PerceptionDelivery.DeliveredInOrder | src/core/perception_store.rs:164-212 | on the fields: at most ten entries, higher priority first, then the older; none withheld is more urgent than one delivered; at equal priority and time global entries before the task's, each in order of arrival |
| PerceptionDelivery.FreshInOrder | src/core/perception_store.rs:168-193 | what waits in a list is its unconsumed entries, in order of arrival |
| PerceptionDelivery.TakeKeepsEntries | src/core/perception_store.rs:164-193 | a take keeps every entry where it is and sets only its mark; the lists of other tasks stay |
| PerceptionDelivery.WaitingAfterStep | src/core/perception_store.rs:111-249 | what every operation leaves waiting for every task, in order |
| PerceptionDelivery.WriteDecided | src/core/perception_store.rs:111-147 | a write is refused exactly while a stamp less than 60 seconds old is there, and an accepted one leaves its stamp |
| Perception.GlobalsGoToTheFirst | src/core/perception_store.rs:164-212 | after a take by one task, another task is left with its own entries only; the global ones are consumed |
| Perception.StepConserves | src/core/perception_store.rs:111-249 | copy by copy: what was waiting or is accepted is handed out, still waiting, or dropped, that is withheld beyond ten by a take or removed by a clear or a cleanup |
| Perception.RunConserves | src/core/perception_store.rs:111-249 | the same account over every run from every store |
| Perception.DeliveredAtMostOnce | src/core/perception_store.rs:111-249 | over every run of a new store an entry is handed out at most as often as it was accepted, and the difference was dropped or still waits |
| PerceptionEviction.StepAlike | src/core/perception_store.rs:111-249 | stores that differ only in stamps too old for every write still to come decide alike and stay so |
| PerceptionEviction.EvictionShowsExactlyWhen | src/core/perception_store.rs:111-118 | one eviction makes no difference to a write, whatever the stamps, exactly when the write reads no more than 60 seconds before it |
| PerceptionEviction.EvictionsChangeNothing | src/core/perception_store.rs:111-249 | runs that differ only in their evictions give every write the same verdict and every take the same entries, as long as no write reads more than 60 seconds before an earlier eviction |
| PerceptionEviction.MonotoneIsInTime | src/core/perception_store.rs:245-249 | a clock that never goes back is enough for that |
| PerceptionEviction.EvictionsInvisibleExactlyWhen | src/core/perception_store.rs:111-249 | for every run of operations and times: its evictions are invisible, for every starting store and whatever the writes bring, exactly when no write reads more than 60 seconds before an earlier eviction |
| PerceptionEviction.LateEvictionShows | src/core/perception_store.rs:111-249 | otherwise a store and entries are given for which a verdict changes |
| PerceptionEviction.BackwardClockExample | src/core/perception_store.rs:111-126 | a concrete such run |
| PerceptionWindow.AcceptedAgainExactlyWhen | src/core/perception_store.rs:111-158 | whatever the clock reads: after an accepted write, the next of the same source and content is accepted exactly when it reads at least 60 seconds later, or an eviction reading at least 120 seconds later, or for the workspace monitor a clear, came in between |
| PerceptionWindow.AcceptedWritesAreApart | src/core/perception_store.rs:111-158 | two accepted writes of the same source and content are at least 60 seconds apart, if no write reads more than 60 seconds before an earlier eviction and, for the workspace monitor, no clear comes in between |
| PerceptionWindow.TwiceAtOnceExample | src/core/perception_store.rs:111-249 | otherwise the same entry can be accepted twice at the same instant |
| Perception.StampStays | src/core/perception_store.rs:111-158 | until its key is accepted again, a stamp stays as it is, unless an eviction or a clear takes it away |
| PdcaCheckpoint.CheckpointManager.WritePdcaEnvelope | src/core/checkpoint.rs:134-169 | without claims or storage an error and no change; else one envelope under its generated key, the counter one higher |
| Checkpoints.WriteStores | src/core/checkpoint.rs:134-169 | a write stores an envelope with the recorded fields under iri://checkpoint/<task>/pdca/<number>/<uuid>, and nothing else |
| PdcaCheckpoint.CheckpointManager.ReadPdcaResume | src/core/checkpoint.rs:195-249 | the result `Resumed` defines on what the prefix scan returns |
| PdcaCheckpoint.CheckpointManager.ParseAll | src/core/checkpoint.rs:213-220 | all scanned contents parsed, or an error if one does not parse |
| PdcaCheckpoint.CheckpointManager.CompletedSteps | src/core/checkpoint.rs:239-244 | the distinct steps in order of first occurrence |
| PdcaCheckpoint.L0Store.ScanIriPrefix | src/memory/l0_store.rs:1191-1225 | the first keys under the prefix in key order up to the limit, legacy tool results passed over; a limit of 0 still takes one |
| Checkpoints.LegacyExactlyWhen | src/memory/l0_store.rs:383-393 | a tool-result row is passed over exactly when its key has not five parts |
| Checkpoints.PartsCounted | src/memory/l0_store.rs:388-392 | parts are what stands between slashes, empty ones not counted |
| Checkpoints.ForeignKeyExactlyWhen | src/core/checkpoint.rs:150-160 | an envelope of one task has a key under the prefix of another exactly when the prefixes nest |
| Checkpoints.NextHolds | src/core/checkpoint.rs:134-169 | every step keeps the task's envelopes, and nothing else, under its prefix; generated keys are new, one identity writes the task, and nobody else writes under its prefix |
| Checkpoints.RunHolds | src/core/checkpoint.rs:134-169 | so does every run of such writes, lost writes, restarts and other records (`AllFit`) |
| Checkpoints.ResumeReportsTheRun | src/core/checkpoint.rs:195-249 | after any such run (`AllFit`), a resume reports exactly the recorded steps with an envelope within reach of the scan, each once, and a newest envelope within reach as last successful; up to 100 envelopes all are within reach |
| Checkpoints.ScanReaches | src/core/checkpoint.rs:202-212 | the scan returns exactly the records with fewer than 100 keys before their own under the prefix |
| Checkpoints.FewAreAllScanned | src/core/checkpoint.rs:202-212 | up to 100 envelopes of a task, none is missed |
| CheckpointOrder.LastSuccessfulExactlyWhen | src/core/checkpoint.rs:235-238 | the last successful envelope is the one written last exactly when it is within reach of the scan and every other one within reach is older, keys breaking ties |
| CheckpointOrder.CompletedOrderExactlyWhen | src/core/checkpoint.rs:235-244 | the completed steps come in order of first completion exactly when every recorded step is within reach of the scan and, of any two, the one first written earlier also has there an envelope older than all of the other, keys breaking ties |
| CheckpointOrder.OrderedWritesSuffice | src/core/checkpoint.rs:235-244 | up to 100 envelopes, increasing creation times are enough for both |
| CheckpointOrder.StalledClockExample | src/core/checkpoint.rs:235-244 | two envelopes around a restart, the second at the same instant or earlier: the steps come back reversed and the one written last is not the last successful one |
| Checkpoints.StepStaysCompletedExactlyWhen | src/core/checkpoint.rs:195-249 | a step once reported completed stays so, over every continuation with fresh keys, one identity and no foreign writer (`AllFit`), exactly when one of its envelopes is within reach of the later scan; up to 100 envelopes always |
| CheckpointReach.ForgottenPlanExample | src/core/checkpoint.rs:195-249 | a plan followed by n restarts, each with a later step written under number 0: the plan is still reported exactly when n is below 100 |
| Checkpoints.ForeignEnvelopeExactlyWhen | src/core/checkpoint.rs:213-234 | a resume fails exactly when a record within reach does not parse, and refuses exactly when all parse and one is of another task or identity; up to 100 records all are within reach |
| CatalogBackfill.Backfill | src/bin/kb_catalog_backfill.rs:26-119 | records, counts and reports of a run; the panic and the first unknown id |
| CatalogBackfill.BackfillOne | src/bin/kb_catalog_backfill.rs:34-109 | one record judged and, on a real run, filled in place |
| CatalogBackfill.CollectEvidence | src/bin/kb_catalog_backfill.rs:54-68 | the scopes the documents carry |
| CatalogBackfill.FirstMissing | src/bin/kb_catalog_backfill.rs:110-117 | the least assigned id that no record has |
| CatalogBackfill.FilledExactlyWhenItFits | src/bin/kb_catalog_backfill.rs:34-94 | a scope is filled in exactly when it is the only one the documents name, or assigned where they name none, and contradicts neither the assignment nor a present field |
| CatalogBackfill.StatusExactlyWhen | src/bin/kb_catalog_backfill.rs:34-109 | for each of the six statuses exactly when a record is reported with it, and with which scope, evidence and before-image |
| CatalogBackfill.OneReportEach | src/bin/kb_catalog_backfill.rs:34-109 | a scoped record without an assignment is passed over, every other gets one report under its id |
| CatalogBackfill.EvidenceIs | src/bin/kb_catalog_backfill.rs:54-68 | the evidence is what the entries of the document list carry that carry both a tenant and a project |
| CatalogBackfill.ReportsInOrder | src/bin/kb_catalog_backfill.rs:26-119 | the reports come record by record |
| CatalogBackfill.NeverAlters | src/bin/kb_catalog_backfill.rs:95-106 | a tenant or project present as a string stays, and no other field changes |
| CatalogBackfill.ScopedAfterExactlyWhen | src/bin/kb_catalog_backfill.rs:34-106 | a record is scoped afterwards exactly when it was or a scope was filled, and then it has that scope |
| CatalogBackfill.SecondRunChangesNothing | src/bin/kb_catalog_backfill.rs:26-119 | a second real run changes no record, counts none and cannot panic |
| CatalogBackfill.DryRunCountsTheChanges | src/bin/kb_catalog_backfill.rs:26-119 | a dry run reports as many assigned and unambiguous records as a real run changes |
| CatalogBackfill.PanicsExactlyWhen | src/bin/kb_catalog_backfill.rs:95-106 | a real run panics exactly when `<missing>` is assigned and some record is neither an object nor null |
| CatalogBackfill.PanicExample | src/bin/kb_catalog_backfill.rs:95-106 | it does on a catalog that holds a bare boolean |
| EventRouting.TypeMask.GetOrCreateMask | src/core/event_bus.rs:274-287 | the next bit for a new type, the old mask otherwise; no mask exactly when 64 others are registered |
| EventRouting.TypeMask.CombineMasks | src/core/event_bus.rs:289-294 | the union of the masks of the registered types of a list |
| EventRouting.TypeMask.GetMask | src/core/event_bus.rs:296-298 | the mask of a registered type, none for any other |
| EventRouting.MasksAreDisjoint | src/core/event_bus.rs:274-287 | masks are non-zero and meet only for the same type |
| EventRouting.RegistriesOnlyGrow | src/core/event_bus.rs:274-287 | registering keeps every earlier type at its bit |
| EventRouting.MasksNeverChange | src/core/event_bus.rs:274-287 | a mask once given stays the same over all later registrations |
| EventRouting.CombinedMeets | src/core/event_bus.rs:289-294 | a combined mask meets the mask of a type exactly when the type was listed and registered, and is zero exactly when no listed type was |
| EventRouting.MaskPassesExactlyWhen | src/core/event_bus.rs:400-403 | the bit test accepts an event, now or after later registrations, exactly when its type was listed and registered when the mask was made, or no listed type was |
| EventRouting.BitTestIsListTest | src/core/event_bus.rs:400-403 | with all listed types registered in time it is the list test |
| EventRouting.LateTypeExample | src/core/event_bus.rs:289-294 | a listed type registered later is turned away |
| EventRouting.FilterAcceptsExactlyWhen | src/core/event_bus.rs:671-693 | what a filter with a type list and the mask combined from it lets through |
| EventRouting.OpenFilterAcceptsExactlyWhen | src/core/event_bus.rs:671-693 | what a filter without types and mask lets through |
| FiveW2H.Task5W2H.ToJsonLd | src/core/five_w2h.rs:468-579 | whatever is set, the printed form reads back through `FromJsonLd` as this very record, if the date parser undoes the date printer on its instants |
| FiveW2HRecord.RecordReadsBack | src/core/five_w2h.rs:581-852 | a value with the printed sections under their keys reads back as the record |
| FiveW2HFills.ReadingFailsExactlyWhen | src/core/five_w2h.rs:581-640 | reading fails exactly for a value that is no object, or without a subject, a reason with a description, or one of the three priorities |
| FiveW2HRecord.HowMuchReadsBack | src/core/five_w2h.rs:759-793 | budget, limits, quality and actual cost read back, the 32-bit casts losing nothing |
| FiveW2H.Task5W2H.MergeUpdates | src/core/five_w2h.rs:193-391 | the record after an update, section by section |
| FiveW2H.Task5W2H.DeriveDefaults | src/core/five_w2h.rs:395-437 | the record after the defaults |
| FiveW2H.Task5W2H.CheckCompleteness | src/core/five_w2h.rs:441-454 | the required dimensions without a recorded fill, in order |
| FiveW2HUpdates.RunKeepsRecord | src/core/five_w2h.rs:178-391 | over every run of updates and fills, a dimension that is set is on record as filled |
| FiveW2HUpdates.DefaultsFillGaps | src/core/five_w2h.rs:395-437 | defaults fill every unset dimension but "when" (and "where" without a working directory) and overwrite none |
| FiveW2HFills.NewRecord | src/core/five_w2h.rs:117-151 | what a new record holds and notes |
| FiveW2HFills.DefaultValues | src/core/five_w2h.rs:395-437 | what the defaults are: empty but for the working directory and the number of cycles |
| FiveW2HFills.DefaultsAreNoted | src/core/five_w2h.rs:395-437 | the defaults are noted as such for exactly the dimensions they fill |
| FiveW2HUpdates.MissingExactlyWhen | src/core/five_w2h.rs:395-454 | after any such run and the defaults, exactly an unfilled "when", and an unfilled "where" without a working directory, are reported missing |
| FiveW2HUpdates.MergeReplaces | src/core/five_w2h.rs:193-391 | for each of the five dimensions exactly when an update replaces it and with what; what, why and the frozen flag never change |
| FiveW2HFills.UpdatesAreNoted | src/core/five_w2h.rs:178-391 | an update is noted, as the planning agent's, for exactly the dimensions it replaces |
| FiveW2HFills.EitherSpelling | src/core/five_w2h.rs:364-368 | "how much" may be spelled either way, the second counting only where the first is absent |
| FiveW2HFills.OddValues | src/core/five_w2h.rs:204-391 | numbers beyond 32 bits keep their low half; items that are no strings and unknown access levels are passed over |
| FiveW2HSections.WhoIsTakenOver | src/core/five_w2h.rs:204-244 | merging a `who` section spelled as the structure serializes sets exactly that structure |
| FiveW2HSections.WhenIsTakenOver | src/core/five_w2h.rs:246-280 | merging a serialized `when` section sets that structure exactly when it has a deadline or a duration (or was set already); otherwise nothing changes |
| FiveW2HSections.WhereIsTakenOver | src/core/five_w2h.rs:282-314 | the same for `where` with data sources or an environment |
| FiveW2HSections.HowIsTakenOver | src/core/five_w2h.rs:316-361 | merging a serialized `how` section sets it without its plan, so exactly when there is none it arrives whole: merging reads `planIRI`, the structure serializes `planIri` |
| FiveW2HSections.HowMuchIsTakenOver | src/core/five_w2h.rs:363-390 | merging a serialized `how_much` section sets it without the actual cost, so it arrives whole exactly when there is none |
| FiveW2HUpdates.DefaultsRecord | src/core/five_w2h.rs:395-437 | the defaults record exactly the dimensions they fill |
| FiveW2HUpdates.MissingAfterDefaults | src/core/five_w2h.rs:395-454 | for every record, after the defaults a dimension is reported missing exactly when it is required, no fill is on record and the defaults do not fill it |
| FiveW2HUpdates.UnrecordedExample | src/core/five_w2h.rs:153-156 | so a dimension set through a builder, which records no fill, stays reported missing |
| FiveW2HUpdates.EmptySectionsErase | src/core/five_w2h.rs:193-391 | empty sections replace who, how and how much, and leave when and where alone |

## Left out

- Floating point: probabilities, priors, ratios and costs are reals. In single precision a tiny posterior can underflow to 0 and be dropped; the model has no such case.
- Counter widths: counts, sequence numbers and lengths are unbounded. `n as u32` in the 5W2H reader and the 64 bits of the type masks are modelled exactly.
- Clocks, generated ids, the working directory and the environment are parameters; one clock reading stands for all the readings within one call.
- Locks: only `record_observation` is modelled with its three separate critical sections. The other stores are modelled one operation at a time, and `clear` of the statistics store, which is marked for testing and not atomic, is left out.
- The graph backend is a fixed node list and edge list during one query; `propagation_graph`, `observations_explained` and `alternative_causes` are left out.
- The rest of `src/causal/fused.rs`: fixed-weight arithmetic over results of other stores.
- Tool-result compression, token estimates and the wording of summaries and warnings; of the summary only whether it is empty is specified. Message contents are plain strings.
- JsonExtractor.ExtractionUndoesPrinting: states the brace branch only; `JsonExtractor.RoundTrip` has both branches.
- How the configuration library parses files: a file is a tree of already parsed values, keys fold character by character, a top-level key is split at `.` and `[`, and array subscripts in keys are taken as path components. Legacy variables whose split name is no valid path are taken as the path they spell.
- Load errors of the configuration and the warnings about ignored keys.
- Tenant and project matching on event payloads in `Subscription::matches`; channels and delivery of events.
- PdcaCheckpoint.L0Store.ScanIriPrefix: has no storage errors and no rows that fail to decode, because the database is foreign code; contents that are no envelope are modelled.
- L0 tags, search and the other indexes; a write that dies before it stores is the operation `Lost`.
- Reading and writing the catalog and its audit file, and parsing the assignments.
- Dates are instants; RFC 3339 printing and parsing are parameters, and the parser is assumed to undo the printer on the instants at hand.
- Enumerations, defaults, prompt assembly, command lines, model calls, HTTP and gRPC: plumbing without a property that spans operations.
