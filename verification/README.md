# A verified model of the fabric's hard core

LLM Fabric is a gateway in front of language models. This project models the parts of it whose
correctness rests on an argument rather than on reading one function, and proves the arguments:

- **Guardrails** (`Redaction`, `Streaming`, `Chunking`, `GreedyRuns`, `MixedSecrets`, `PiiRedaction`,
  `ShippedPatterns`). The streaming
  output inspector holds back a tail of the text, redacts it in place and emits the rest. No secret
  pattern ever occurs in what was emitted, whatever the model streams and however it is cut into
  deltas; and it is proved exactly when the cutting can be seen in the output, with all kinds of secret
  freely mixed. One evaluation of a text without secrets also leaves no personal data in it.
- **Context compiler** (`ContextBlocks`, `ContextOrdering`, `ContextOptimize`, `ContextCompiler`,
  `ContextResults`). Deduplication, stable sort, greedy budget truncation, prefix split and token
  accounting: conservation of tokens, the window bound, who is kept in which order of precedence,
  independence from blocks considered later, what becomes of the messages of a chat, and non-interference of
  the stable prefix with the rest of it.
- **Dependency health** (`HealthHistory`, `Health`, `Monitor`). The four-state machine with its counters
  equals a predicate on the history of observations; flapping costs a minimum number of observations,
  and that bound is attained; detection and recovery take bounded time.
- **Intent cascade** (`IntentSchema`, `SemanticCache`, `IndexPayload`, `Cascade`, `CascadeLayers`,
  `CascadeResults`, `CascadeService`). Layers asked in order behind two caches: who is asked what, who
  answers, and that, whatever was classified before and whatever the caches lose, a cached answer is always the
  layers' own answer to an earlier request, and from the semantic cache one that has not expired.
- **Taxonomy** (`IntentTaxonomy`): construction succeeds exactly on forests of bounded depth, the capped
  walk to the root is nevertheless complete, and no id is ever lost by evolution.
- **Revocation** (`Revocation`): a denylist with lazy deletion, purging and a hard cap, against the plain
  log of revocations.
- **Measurement** (`Counting`, `Benchmark`, `Metrics`, `LoadSchedule`): benchmark arithmetic, bounded
  counters and histograms against the observation history, and the open-loop load schedule.

Objects the program mutates are classes here (`StreamingOutputInspector`, `LiveState`,
`DependencyHealth`, `DependencyMonitor`, `SemanticIntentCache`, `IntentCascade`,
`InMemoryRevocationStore`, `Histogram`, `IntentMetrics`); its loops are loops, proved against
functions whose meaning the lemmas state. Everything else is values, functions and lemmas; `Filtering`,
`Sorting` and `Wrappers` hold what several of the modules share.
`dafny verify dfyconfig.toml` checks the whole project.

Conventions of the model. Confidences, times, prices and tick instants are real numbers. Clocks,
random draws, probe outcomes and cache failures are parameters. Text is a sequence of characters.
Each lock-protected method is one atomic step. The regular expressions are modelled by the shape the
program uses: a choice of fixed-width patterns, an optional greedy tail, optional word boundaries.
Prompt and content normalisation are abstract functions, and a fingerprint is the normalised content
itself. Classifiers, similarity and calibration are abstract deterministic functions; calibration
maps into [0, 1].

Where the code and its own words disagree, the model follows the code:

- The inspector's docstring suggests that deltas do not matter. For `sk-` keys they do: characters that
  arrive after the key was redacted stay in the stream. `GreedyRuns.GreedyChunkingExact` and
  `ShippedPatterns.ShippedMixedExact` say exactly when.
- The published detection and recovery bounds count interval and timeout once per observation. They hold if and
  only if the longest turn takes no longer than that (`Monitor.DetectionBoundExact`). Since the loop lets a probe
  run a quarter of a second past its timeout, they never hold of the loop as it is, with or without jitter
  (`Monitor.PublishedBoundsNeverHold`). `Monitor.DetectionTime` gives the bound that does.
- The denylist "evicts the oldest entries". It evicts ids before any fingerprint, and re-revoking does not
  make an entry young again: `Revocation.EvictsOldestExact` says when it does evict the oldest, and
  `Revocation.RevocationHolds` when a fresh revocation survives at all; `Revocation.NewestRevocationLost` is a
  run in which one succeeds and denies nothing.
- A REQUIRED system message survives truncation but not deduplication: an earlier user turn with the same
  normalised content replaces it (`ContextResults.MaskedSystemLost`).
- Truncation selects by block id, and the ids of extra blocks are not checked: a droppable block that shares
  a required block's id is kept beyond the allowance. `ContextOptimize.TruncationExact` and
  `ContextResults.AccountingExact` say exactly which shared ids do harm.
- The exact cache's key leaves out the shortlist a caller may send in the request's metadata. Two requests may
  share an entry if and only if their shortlists are equal too (`CascadeService.SharedEntryExact`).
- Reading a stored index back does not reject a repeated key. The program's own writes never store one; a
  foreign writer of the store could (`IndexPayload.ReadWellFormedExact`).

## Model

| member | source | states |
|---|---|---|
| Redaction.RedactText | src/llm_fabric/guardrails/__init__.py:363-367 | the rebinding loop over the patterns is their leftmost, non-overlapping replacement one after the other |
| Redaction.SubClean | src/llm_fabric/guardrails/__init__.py:363-367 | replacing one pattern leaves no place where it could match and opens no place for another pattern |
| Redaction.RedactClean | src/llm_fabric/guardrails/__init__.py:363-367 | after redaction no pattern of the list matches anywhere, whatever their order |
| Redaction.RedactFront | src/llm_fabric/guardrails/__init__.py:363-367 | redaction changes nothing before the first bracket of its result |
| Streaming.StreamingOutputInspector.Create | src/llm_fabric/guardrails/__init__.py:274-284 | construction fails exactly for a holdback below one, and starts with an empty buffer |
| Streaming.StreamingOutputInspector.Push | src/llm_fabric/guardrails/__init__.py:286-287 | the new buffer, what is emitted and the decision are those of one evaluation of buffer plus delta |
| Streaming.StreamingOutputInspector.Flush | src/llm_fabric/guardrails/__init__.py:289-292 | everything held back is evaluated once more and emitted, and the buffer is empty |
| Streaming.StreamThrough | src/llm_fabric/gateway/routes/chat.py:668-718 | the serving loop around the inspector emits the concatenation over all deltas and stops at the first BLOCK |
| Streaming.BufferWithinHoldback | src/llm_fabric/guardrails/__init__.py:294-310 | after a push the buffer never exceeds the holdback, and whenever something is emitted it is exactly full |
| Streaming.BlockedExactly | src/llm_fabric/guardrails/__init__.py:238-242 | the stream is ended exactly when the text, at one to four bytes a character as UTF-8 has it, exceeds the ceiling, and then nothing is passed on |
| Streaming.SeamHoldsNothing | src/llm_fabric/guardrails/__init__.py:294-310 | no occurrence can lie across the seam between emitted text and buffer, although a redaction may have shortened the tail |
| Streaming.StreamKeepsClean | src/llm_fabric/guardrails/__init__.py:266-310 | for every stream and every chunking, from any safe state, nothing emitted contains an occurrence of a secret pattern no wider than the holdback plus one |
| ShippedPatterns.ShippedStreamHasNoSecret | src/llm_fabric/guardrails/__init__.py:57-61 | with the shipped patterns and holdback no search for any of the three secrets succeeds in the emitted text, even when a BLOCK ends the stream |
| ShippedPatterns.SecretShapes | src/llm_fabric/guardrails/__init__.py:57-61 | where the three secret patterns fit, character by character |
| ShippedPatterns.PiiShapes | src/llm_fabric/guardrails/__init__.py:62-65 | where the two PII shapes fit, character by character |
| PiiRedaction.RedactLeavesNone | src/llm_fabric/guardrails/__init__.py:363-367 | replacing patterns that must stand between word boundaries leaves no match of any of them, although it changes what the rest of the text stands next to |
| ShippedPatterns.ShippedEvaluationLeavesNoPii | src/llm_fabric/guardrails/__init__.py:238-258 | on the shipped engine one evaluation of a text without secrets passes on no PII shape |
| Chunking.RedactPrefixFirst | src/llm_fabric/guardrails/__init__.py:363-367 | redacting a prefix first does not change the redaction of the whole: R(R(x)+y) = R(x+y) for self-contained patterns |
| Chunking.StreamRefinesAccumulate | src/llm_fabric/guardrails/__init__.py:294-310 | with one kind of secret in the stream the bounded inspector emits what an unbounded one would that re-redacts everything received so far |
| Chunking.ChunkingUnobservable | src/llm_fabric/guardrails/__init__.py:266-310 | for a self-contained pattern, the only one occurring, the emitted text is the batch redaction of the whole stream for every chunking without a BLOCK |
| Chunking.CleanStreamUnchanged | src/llm_fabric/guardrails/__init__.py:266-310 | a stream in which no pattern occurs is emitted unchanged, whatever the deltas |
| GreedyRuns.BatchSwallowsRun | src/llm_fabric/guardrails/__init__.py:58 | in one piece, text that continues a matched run is swallowed by the replacement |
| GreedyRuns.CutRunShows | src/llm_fabric/guardrails/__init__.py:294-310 | once a delta boundary cuts a run, the remaining characters stay in the stream and it differs from the batch redaction |
| GreedyRuns.GreedyChunkingExact | src/llm_fabric/guardrails/__init__.py:266-310 | for a pattern with an unbounded tail the emitted text is the batch redaction if and only if no delta boundary cuts a run |
| MixedSecrets.TwiceIsUnion | src/llm_fabric/guardrails/__init__.py:363-367 | two kinds of fixed width redacted one after the other are redacted as one kind, when neither begins inside the other |
| MixedSecrets.StreamRefinesRedaction | src/llm_fabric/guardrails/__init__.py:294-310 | for every mix of secrets and as long as no PII occurs, the bounded inspector emits what an unbounded one would that re-redacts everything received so far |
| MixedSecrets.NeverTogether | src/llm_fabric/guardrails/__init__.py:294-310 | once a cut run has put something into the stream that the batch redaction swallowed, the two never agree again, whatever follows and however it is cut |
| MixedSecrets.AgainExact | src/llm_fabric/guardrails/__init__.py:266-310 | a greedy kind and fixed-width kinds freely mixed: re-redacting after every delta gives the batch redaction if and only if no delta boundary cuts a run |
| ShippedPatterns.ShippedMixedExact | src/llm_fabric/guardrails/__init__.py:57-65 | on the shipped engine, all three kinds of secret freely mixed and no PII shape: the emitted text is the batch redaction if and only if no delta cuts an `sk-` run |
| ShippedPatterns.SecretsMixable | src/llm_fabric/guardrails/__init__.py:57-61 | the three shipped patterns meet the conditions of that result: access keys lie inside an `sk-` run or apart from it, headers overlap neither |
| ShippedPatterns.ShippedChunkingUnobservable | src/llm_fabric/guardrails/__init__.py:57-65 | without `sk-` keys and PII, private-key headers and access keys, mixed, are redacted as in one piece whatever the deltas |
| ShippedPatterns.ApiKeyCutShows | src/llm_fabric/guardrails/__init__.py:58 | a concrete key of seventeen characters, cut after the sixteenth, is not blocked and comes out other than its batch redaction, on the shipped engine |
| HealthHistory.CountersCount | src/llm_fabric/deps/health.py:240-274 | both counters count the trailing run of failures or successes, and each status implies the counter ranges it can occur with |
| HealthHistory.StatusReadsHistory | src/llm_fabric/deps/health.py:208-282 | a mandatory dependency refuses work if and only if its history is empty or some trip was never followed by the required run of successes |
| HealthHistory.FlapBound | src/llm_fabric/deps/health.py:240-274 | a history with k changes from not ready to ready has at least 1+(k-1)(recovery threshold+1) observations |
| HealthHistory.FlapBoundTight | src/llm_fabric/deps/health.py:240-274 | that bound is attained for every number of recoveries |
| Health.LiveState.OnSuccess | src/llm_fabric/deps/health.py:240-262 | one success moves the mutable state as the pure step does, stamps the time and clears the reason |
| Health.LiveState.OnFailure | src/llm_fabric/deps/health.py:264-274 | one failure moves the mutable state as the pure step does, stamps the time and records a reason from the closed set |
| Health.DependencyHealth.Create | src/llm_fabric/deps/health.py:99-138 | refused exactly for a threshold below one; otherwise every registered dependency starts with an empty history and a correct readiness bit |
| Health.DependencyHealth.Observe | src/llm_fabric/deps/health.py:208-238 | exactly the named dependency's history grows by one, with the time noted and the reason of a failure from the closed set; unknown names change nothing, and optional ones never move the readiness bit |
| Health.DependencyHealth.ServingReady | src/llm_fabric/deps/health.py:163-171 | the cached bit holds if and only if no mandatory dependency's history says it is down |
| Health.DependencyHealth.Refusal | src/llm_fabric/deps/health.py:176-188 | a refusal exists exactly while not ready and names exactly the mandatory dependencies that are down |
| Monitor.DependencyMonitor.Run | src/llm_fabric/deps/monitor.py:71-105 | over any turns of the loop the clock advances by the sleeps and probes, and the histories grow by one probe outcome per dependency and turn |
| Monitor.DependencyMonitor.ProbeDependency | src/llm_fabric/deps/monitor.py:93-105 | a probe adds its outcome to the history at the time it ends; a failure is a timeout exactly from a quarter second after the timeout on |
| Monitor.DetectionTime | src/llm_fabric/deps/monitor.py:77-105 | whatever happened before, a dependency whose probes all fail is UNHEALTHY after fail-threshold turns, within that many of the longest turns, for any number of dependencies |
| Monitor.RecoveryTime | src/llm_fabric/deps/monitor.py:77-105 | likewise HEALTHY after recovery-threshold turns of successful probes |
| Monitor.DetectionInsideTurn | src/llm_fabric/deps/monitor.py:77-105 | an outage that begins inside a turn, before or after its probe, is detected with one turn more |
| Monitor.RecoveryInsideTurn | src/llm_fabric/deps/monitor.py:77-105 | and so is a recovery |
| Monitor.DetectionBoundExact | src/llm_fabric/deps/health.py:79-84 | every undisturbed run of failing probes stays within the published detection bound if and only if the longest turn takes no longer than interval plus timeout |
| Monitor.RecoveryBoundExact | src/llm_fabric/deps/health.py:86-88 | likewise for the published recovery bound |
| Monitor.PublishedBounds | src/llm_fabric/deps/health.py:79-88 | while that is so, any dependency has changed its status within the published bounds, whatever happened before |
| Monitor.PublishedBoundsNeverHold | src/llm_fabric/deps/monitor.py:77-105 | with the quarter second the loop adds to every timeout neither bound holds, for any non-negative interval and timeout, any jitter and any dependencies |
| Monitor.WorkAdmittedPastBound | src/llm_fabric/deps/health.py:79-84 | whenever a turn can exceed its share there is, for every threshold, a run past the published bound before whose last probe a healthy dependency still admits work |
| Monitor.LongestRunExact | src/llm_fabric/deps/monitor.py:77-105 | the least bound that holds of all runs of n turns: n longest sleeps and, for every dependency, n timeouts with a quarter second each |
| Monitor.ShortestRunExact | src/llm_fabric/deps/monitor.py:87-91 | and the greatest lower bound: n sleeps, of three quarters of the interval under jitter |
| ContextOrdering.SortSorts | src/llm_fabric/context/ordering.py:14-24 | the order of blocks is sorted by cacheability, then trust |
| ContextOrdering.SortStable | src/llm_fabric/context/ordering.py:14-24 | blocks of equal cacheability and trust keep their original order |
| ContextOrdering.OrderMeaning | src/llm_fabric/context/ordering.py:14-24 | with cacheability and trust ranked one by one: nothing stands in front of what belongs before it, blocks ranked alike keep their order, and the blocks are the same |
| ContextOrdering.ReorderIsIdentity | src/llm_fabric/context/ordering.py:14-24 | any selection from ordered blocks is already ordered, so sorting again changes nothing |
| ContextOrdering.SplitStablePrefix | src/llm_fabric/context/ordering.py:27-37 | the leading run of stable and semi-stable blocks, and the rest beginning with a block of neither kind |
| ContextOrdering.SplitExact | src/llm_fabric/context/ordering.py:27-37 | on ordered blocks the split separates all stable and semi-stable blocks from all others |
| ContextOptimize.Deduplicate | src/llm_fabric/context/optimize.py:14-26 | the loop keeps the first block of each fingerprint and counts the tokens of the rest |
| ContextOptimize.DedupMeaning | src/llm_fabric/context/optimize.py:14-26 | only given blocks are kept, every given block has a kept twin, and no two kept ones are twins |
| ContextOptimize.DedupTokens | src/llm_fabric/context/optimize.py:14-26 | tokens kept plus tokens removed are the tokens given |
| ContextOptimize.TruncateToBudget | src/llm_fabric/context/optimize.py:29-61 | the imperative selection is the greedy truncation the next lemmas describe, precedence included |
| ContextOptimize.TruncationMeaning | src/llm_fabric/context/optimize.py:29-61 | while shared ids are harmless: it fails if and only if the required blocks exceed the allowance; otherwise an in-order selection that keeps every required block, fits, accounts for every token, and leaves out no block that would still fit |
| ContextOptimize.TruncationExact | src/llm_fabric/context/optimize.py:29-61 | every allowance is met and every token accounted for if and only if no droppable block with tokens shares a required block's id |
| ContextOptimize.KeptExactly | src/llm_fabric/context/optimize.py:46-61 | while shared ids are harmless a block is kept if and only if it is required or was taken by the greedy pass |
| ContextOptimize.KeptInPrecedence | src/llm_fabric/context/optimize.py:46-61 | while shared ids are harmless a block that is not required is kept if and only if it fits behind the kept blocks that go before it: more important ones from required to optional, then larger ones, then earlier ones |
| ContextOptimize.ImportanceRespected | src/llm_fabric/context/optimize.py:46-61 | no block is kept while a more important one that is no larger is dropped |
| ContextOptimize.GreedyMaximal | src/llm_fabric/context/optimize.py:46-57 | a candidate that was passed over does not fit behind everything that was taken |
| ContextOptimize.LaterBlocksDoNotMatter | src/llm_fabric/context/optimize.py:29-61 | adding a droppable block changes no decision on a block considered before it |
| ContextOptimize.SharedIdExceedsBudget | src/llm_fabric/context/optimize.py:58-61 | otherwise, with just enough room for the required blocks, such a block is kept and the allowance exceeded |
| ContextCompiler.Admit | src/llm_fabric/context/compiler.py:250-284 | messages become blocks with distinct positions in order, followed by the extra blocks, and a foreign tenant's block is refused |
| ContextCompiler.SelectedMeaning | src/llm_fabric/context/compiler.py:96-112 | of ordered blocks with harmless ids: selection fails exactly for a bad budget or too little room for the required ones; otherwise the result is still ordered, lacks no required block, accounts for every token and fits the allowance; without a window it is everything |
| ContextCompiler.CountByType | src/llm_fabric/context/compiler.py:113-116 | each of the ten types is charged exactly the tokens of its blocks |
| ContextCompiler.Compile | src/llm_fabric/context/compiler.py:80-224 | the whole pipeline yields the record that the results below are about, messages included, or the first error |
| ContextResults.TokensConserved | src/llm_fabric/context/compiler.py:96-116 | tokens before = after + deduplicated + dropped; after = the sum over the ten types = stable + volatile; with a window, while shared ids are harmless |
| ContextResults.WindowRespected | src/llm_fabric/context/budget.py:101-163 | while shared ids are harmless, what is kept fits the window with reservation, margin and framing if and only if those alone leave room; otherwise only empty blocks are kept |
| ContextResults.AccountingExact | src/llm_fabric/context/compiler.py:80-224 | a whole compilation respects every window and loses no token if and only if shared ids are harmless after deduplication, or a negative reservation refuses everything |
| ContextResults.BadBudgetRefused | src/llm_fabric/context/budget.py:89-99 | a configuration error arises exactly for a window that is not positive or a negative reservation |
| ContextResults.SetAside | src/llm_fabric/context/compiler.py:91-95 | the reservation recorded is the one asked for, else the request's own limit unless absent or zero, else 256; the margin is two percent rounded up, at least 32, or nothing for an exact counter |
| ContextResults.RecordRespectsImportance | src/llm_fabric/context/compiler.py:96-112 | in a compilation under any window no block is kept while a more important one that is no larger and no duplicate is dropped |
| ContextResults.AdmittedAs | src/llm_fabric/context/compiler.py:250-318 | what every message of a chat is admitted as, by its role and by whether it is the latest user turn |
| ContextResults.ChatIdsDistinct | src/llm_fabric/context/compiler.py:250-284 | the ids given to chat messages are pairwise distinct, so truncation's condition holds for every chat |
| ContextResults.MessagesFollowBlocks | src/llm_fabric/context/compiler.py:321-334 | a record has one message per block with its words, in the block's own role if it has one of the four, else tool for tool results, user for user blocks, and otherwise system exactly for system, developer and tenant trust; the blocks stand in the order of cacheability and trust |
| ContextResults.ChatRetold | src/llm_fabric/context/compiler.py:250-334 | a compiled chat is made of messages of the request, each at most once, with their words and roles, and the turns of user and assistant keep their order |
| ContextResults.LatestTurnKept | src/llm_fabric/context/compiler.py:287-318 | whatever the window, the latest user turn is in the compiled chat if and only if no earlier message says the same |
| ContextResults.PrefixExact | src/llm_fabric/context/compiler.py:96-112 | the stable prefix of a chat says exactly its distinct system messages, if and only if none is masked by an earlier turn of other role |
| ContextResults.PrefixNonInterference | src/llm_fabric/context/compiler.py:96-112 | two chats with the same unmasked system messages compile to the same stable prefix whatever their other turns, windows, counters and tenants |
| ContextResults.MaskedSystemLost | src/llm_fabric/context/optimize.py:14-26 | a user turn followed by a system message of the same content compiles to an empty stable prefix, in every window |
| IntentSchema.ConsistentMeaning | src/llm_fabric/intent/schema.py:233-256 | a classification is valid if and only if its label is known exactly in the known state and its abstention flag is up exactly in the abstaining one |
| IntentSchema.OptimizedRouteMeaning | src/llm_fabric/intent/schema.py:383-389 | an optimised route is for known labels with a confidence of at least 0.9, and for nothing else |
| SemanticCache.SemanticIntentCache.Lookup | src/llm_fabric/intent/cache.py:302-355 | something is found exactly when some stored entry expires later than now and is confident and similar enough, and then the first inserted of those no other such entry exceeds in similarity; exactly the entries that expire later than now remain, in their order |
| SemanticCache.SemanticIntentCache.Nearest | src/llm_fabric/intent/cache.py:324-350 | the scan over the insertion order finds the first of the qualifying entries of maximal similarity, or none if none qualifies |
| SemanticCache.SemanticIntentCache.Admit | src/llm_fabric/intent/cache.py:357-408 | admitted exactly when known, not abstaining and confident enough; then only this partition changes, by one bounded insertion |
| SemanticCache.InsertedMeaning | src/llm_fabric/intent/cache.py:394-402 | the order stays duplicate-free, lists exactly the entries, respects the capacity, and drops the first inserted; all other entries are untouched |
| SemanticCache.PurgedWellFormed | src/llm_fabric/intent/cache.py:324-335 | purging keeps the order and the entries in step |
| IndexPayload.ReadPayload | src/llm_fabric/intent/cache.py:491-515 | the reading loop keeps the readable entries of this tenant in order |
| IndexPayload.IndexRoundTrip | src/llm_fabric/intent/cache.py:471-515 | writing an index and reading it back gives the same index if and only if its order names exactly its entries and no key is empty |
| IndexPayload.PayloadRoundTrip | src/llm_fabric/intent/cache.py:471-515 | reading a payload and writing what was read gives the payload again if and only if it is clean |
| IndexPayload.ReadWellFormedExact | src/llm_fabric/intent/cache.py:491-515 | the index read is well formed if and only if no two readable entries share a key |
| Cascade.RunLayers | src/llm_fabric/intent/cascade.py:382-525 | the loop over the layers, with its opinions, shortlist and best guess, gives the declarative answer |
| CascadeResults.AttemptsMeaning | src/llm_fabric/intent/cascade.py:387-452 | the attempts are those of the configured layers, one each, cheapest first |
| CascadeLayers.ShortlistExact | src/llm_fabric/intent/cascade.py:758-764 | the shortlist is the first eight different names that usable verdicts of earlier layers mentioned |
| CascadeLayers.LayersAsked | src/llm_fabric/intent/cascade.py:334-428 | who is asked what: all layers see the bounded text; rules the caller's shortlist; the embedding layer scores the vector if there is one; the model layers the caller's shortlist or the names so far; confidences are calibrated exactly for verdicts with an intent |
| CascadeLayers.BoundDecides | src/llm_fabric/intent/cascade.py:337-344 | two requests that differ only beyond the bound of the text get the same decision |
| CascadeResults.FirstAcceptWins | src/llm_fabric/intent/cascade.py:387-460 | the answer is that of the first layer that names an intent of the taxonomy with the confidence its own threshold asks for, no later layer is asked, and the cost is the sum over those asked |
| CascadeResults.AgreementExact | src/llm_fabric/intent/cascade.py:461-525 | when no layer accepts, the answer is known if and only if rules and embedding name one intent of the taxonomy, at least one of them at the agreement floor and neither with an alternative at 0.18 or more; otherwise the cascade abstains |
| CascadeResults.AbstentionCarriesMaximum | src/llm_fabric/intent/cascade.py:487-525 | without such agreement the abstention carries the greatest confidence with which an intent of the taxonomy was named, that intent as its alternative, and the cost of every layer |
| CascadeResults.AgreementBounded | src/llm_fabric/intent/cascade.py:718-755 | an agreement answer is the intent both cheap layers named, with the combined confidence capped at 0.99 and at most three of the alternatives, and stays at or below what the two missed thresholds combine to |
| CascadeResults.DefaultAgreement | src/llm_fabric/intent/cascade.py:67-77 | under the default thresholds it is at least as confident as either opinion and never allows an optimized route |
| CascadeResults.DefaultBars | src/llm_fabric/intent/cascade.py:67-77 | what the default thresholds ask of each layer, of agreement and of a cached answer |
| CascadeService.KeysExact | src/llm_fabric/intent/cache.py:45-72 | requests share an exact entry if and only if tenant, normalised prompt, language, policy version, conversation and both versions agree, and a semantic partition for all of these but the prompt |
| CascadeService.IntentCascade.Classify | src/llm_fabric/intent/cascade.py:288-525 | over every run: an exact hit is the layers' answer to an earlier request of the tenant with the same key, a semantic hit that of an earlier one similar and confident enough and asked less than the time to live ago, neither abstains, hits are never re-admitted, a miss gives the layers' answer to this request, and both caches change exactly by what was purged and admitted |
| CascadeService.IntentCascade.DecisionRecorded | src/llm_fabric/intent/cascade.py:295-379 | the attempts: first the exact cache, accepted on its hit; then the semantic cache if there is a vector, accepted when what it found meets its threshold; then those of the layers; a hit costs nothing |
| CascadeService.IntentCascade.UnsearchableLeavesStore | src/llm_fabric/intent/cascade.py:334-354 | a request whose text the embedder gives no or an empty vector neither searches nor fills the semantic cache |
| CascadeService.IntentCascade.SearchSemantic | src/llm_fabric/intent/cascade.py:324-379 | the semantic layer serves exactly a nearest usable live neighbour that also meets the layer's own threshold, and what it serves is backed by an earlier request |
| CascadeService.IntentCascade.Remember | src/llm_fabric/intent/cascade.py:604-634 | admitting the layers' own known answer keeps both caches backed by answers to requests that were asked |
| CascadeService.IntentCascade.Forget | src/llm_fabric/intent/cache.py:199-210 | both caches stay backed when the exact cache loses any of its entries |
| CascadeService.IntentCascade.ForgetPartitions | src/llm_fabric/intent/cache.py:410-415 | and when the semantic cache loses any of its partitions |
| CascadeService.SemanticBackedAdmit | src/llm_fabric/intent/cache.py:357-408 | insertion and eviction keep every semantic entry backed |
| CascadeService.ColdReadsKey | src/llm_fabric/intent/cascade.py:382-525 | layers that read only the key and the shortlist give two requests alike in both the same decision, attempts included |
| CascadeService.ExactHitIsCold | src/llm_fabric/intent/cascade.py:295-322 | then an exact hit is what the uncached cascade would answer to this very request |
| CascadeService.SharedEntryExact | src/llm_fabric/intent/cascade.py:396-404 | two requests with one prompt get the same answer from every pipeline that reads only key and shortlist if and only if their shortlists are equal |
| IntentTaxonomy.CheckChain | src/llm_fabric/intent/taxonomy.py:307-321 | the walk with its visited set succeeds if and only if the chain of parents reaches a root within eight steps |
| IntentTaxonomy.Build | src/llm_fabric/intent/taxonomy.py:134-168 | construction succeeds if and only if version, ids, parents and chains are in order; then every given node stands in the table unchanged but for the version and its parent: the explicit one if it has one, else its id without the last dotted part, else none; and children is the inverse of parent |
| IntentTaxonomy.ImpliedOnce | src/llm_fabric/intent/taxonomy.py:96-97 | an id implies no more than one parent |
| IntentTaxonomy.Ancestors | src/llm_fabric/intent/taxonomy.py:232-242 | in a valid taxonomy the capped walk yields the full, repeat-free chain to a root |
| IntentTaxonomy.EndingChainHasNoRepeats | src/llm_fabric/intent/taxonomy.py:307-321 | a chain of parents that ends visits no node twice |
| IntentTaxonomy.ChildrenInverse | src/llm_fabric/intent/taxonomy.py:216-217 | a node is among an id's children if and only if that id is its parent |
| IntentTaxonomy.Evolve | src/llm_fabric/intent/taxonomy.py:244-289 | the next version exists if and only if it is new, its changes apply and the result is a forest; it is valid and keeps every id |
| IntentTaxonomy.MergedMeaning | src/llm_fabric/intent/taxonomy.py:252-282 | additions take new ids, replacements and retirements touch only the nodes named, and nothing else changes |
| IntentTaxonomy.StepMeaning | src/llm_fabric/intent/taxonomy.py:244-289 | one evolution keeps every id, and every node it neither replaces nor retires in all but its version |
| IntentTaxonomy.StepAdds | src/llm_fabric/intent/taxonomy.py:244-289 | a node that is added enters as one given for the new version does |
| IntentTaxonomy.StepRetires | src/llm_fabric/intent/taxonomy.py:272-282 | a retired node stays, marked as such |
| IntentTaxonomy.EveryIdStillResolves | src/llm_fabric/intent/taxonomy.py:244-289 | along any line of evolutions every id ever present still resolves |
| IntentTaxonomy.UntouchedNodesStay | src/llm_fabric/intent/taxonomy.py:244-289 | and a node no change touched has the parent, status and description it had |
| Revocation.InMemoryRevocationStore.IsRevoked | src/llm_fabric/identity/revocation.py:67-73 | what is denied was always revoked last without expiry or with a future one; and with a non-decreasing clock and the cap never exceeded, exactly that is denied, so lazy deletion is invisible; a lookup forgets the key it asked for if that has expired, and nothing else |
| Revocation.InMemoryRevocationStore.Revoke | src/llm_fabric/identity/revocation.py:75-90 | refused exactly with neither key; otherwise expired entries go, the new ones are written, both tables together respect the cap, a fingerprint is evicted only when no id is left, and each key just revoked is in force exactly when the excess does not reach its place in the queue |
| Revocation.PurgeTable | src/llm_fabric/identity/revocation.py:92-101 | collecting and deleting the stale keys leaves exactly the entries that still deny, in order |
| Revocation.EvictOverflow | src/llm_fabric/identity/revocation.py:103-109 | exactly the excess goes, oldest ids first and fingerprints only after all ids |
| Revocation.AgreesPurge | src/llm_fabric/identity/revocation.py:92-101 | purging keeps a table in agreement with the log from now on |
| Revocation.WrittenAgree | src/llm_fabric/identity/revocation.py:86-89 | writing both keys after a purge agrees with the log that ends in those two revocations |
| Revocation.WrittenSound | src/llm_fabric/identity/revocation.py:75-109 | even after eviction every entry carries its key's last revocation |
| Revocation.RevocationHolds | src/llm_fabric/identity/revocation.py:75-109 | of any store, a revocation that still denies is in force after the call if and only if the excess over the cap is at most its index among the ids, or at most all ids plus its index among the fingerprints |
| Revocation.NewestRevocationLost | src/llm_fabric/identity/revocation.py:75-109 | a run on a fresh store in which the second revocation succeeds and denies nothing while the first still does |
| Revocation.EvictsOldestExact | src/llm_fabric/identity/revocation.py:51-59 | eviction takes the oldest entries if and only if ids followed by fingerprints stand in the order of their last revocations |
| Revocation.LastAtMeaning | src/llm_fabric/identity/revocation.py:86-89 | the age that result speaks of: the place of the key's last revocation in the log |
| Benchmark.ScoreLabels | src/llm_fabric/intent/benchmark.py:289-305 | exactly the labels that appear have a slot, holding how often each was expected, predicted and both |
| Benchmark.PooledCounts | src/llm_fabric/intent/benchmark.py:328-331 | summed over the labels in any order the slots give the number of outcomes, twice, and the number correct |
| Benchmark.MicroF1IsAccuracy | src/llm_fabric/intent/benchmark.py:320-338 | micro F1 is the share of correct outcomes, and the reported accuracy if and only if as many cases were scored as are listed, or nothing was right |
| Benchmark.ConfusionMatrix | src/llm_fabric/intent/benchmark.py:375-380 | exactly the pairs that occur have a cell, holding how often they occur |
| Benchmark.MatrixMargins | src/llm_fabric/intent/benchmark.py:289-380 | rows of the matrix sum to support, columns to predictions, and the diagonal is the true positives |
| Benchmark.ExpectedCalibrationError | src/llm_fabric/intent/benchmark.py:426-449 | the two loops give, over ten bins of equal width each with its lower edge, the gaps between confidence and correctness netted within each bin, as a share of all outcomes |
| Benchmark.CalibrationErrorBounds | src/llm_fabric/intent/benchmark.py:426-449 | it lies in [0, 1] and is at most the mean of the single gaps |
| Benchmark.PerfectlyCalibrated | src/llm_fabric/intent/benchmark.py:427-433 | it is zero if and only if in every bin the stated confidence adds up to the number of correct answers |
| Metrics.Histogram.Observe | src/llm_fabric/intent/metrics.py:48-55 | every bucket keeps holding the number of observations that fall in it, together with their count and total |
| Metrics.BucketIsInterval | src/llm_fabric/intent/metrics.py:48-55 | with sorted bounds bucket i holds the values above bound i-1 and up to bound i, the last one the rest |
| Metrics.ConfidenceTenths | src/llm_fabric/intent/metrics.py:25 | the confidence histogram has tenths, each with its upper edge |
| Metrics.LatencyEdges | src/llm_fabric/intent/metrics.py:28 | the edges of the latency histogram in milliseconds |
| Metrics.BucketsAddUp | src/llm_fabric/intent/metrics.py:48-55 | the buckets sum to the number of observations, for any bounds |
| Metrics.IntentMetrics.RecordOne | src/llm_fabric/intent/metrics.py:99-151 | every counter and both histograms again say exactly what was recorded, now with one more record |
| Metrics.IntentMetrics.RecordServing | src/llm_fabric/intent/metrics.py:161-172 | likewise with one more state counted without a classification |
| Metrics.IntentPush | src/llm_fabric/intent/metrics.py:145-151 | a tracked intent's count is complete, and an intent is dropped only when 512 are tracked |
| Metrics.SnapshotAddsUp | src/llm_fabric/intent/metrics.py:201-233 | classifications = the sum over layers = the sum over intents plus dropped = each histogram's total |
| Metrics.StatesAddUp | src/llm_fabric/intent/metrics.py:123-151 | the four states sum to the serving requests if and only if no record was flagged as abstained under another state |
| Metrics.StateMeaning | src/llm_fabric/intent/metrics.py:113-119 | the state a record without one counts under |
| Metrics.ClassificationsAddUp | src/llm_fabric/intent/schema.py:234-256 | the validity rule of classifications excludes that, so they do for everything the cascade records |
| Metrics.Percentile | src/llm_fabric/intent/metrics.py:262-274 | a value of the list that at least the fraction do not exceed while fewer than the fraction lie below it; none for no values, an error for a fraction outside (0, 1] |
| LoadSchedule.OpenLoop | src/llm_fabric/bench/load.py:378-392 | the stepping loop ends, and a connection fires exactly its own arrivals before the deadline, in order |
| LoadSchedule.ExactInterleaving | src/llm_fabric/bench/load.py:378-392 | arrival n is fired at start + n/rate if and only if that is before the deadline, as request n div connections of connection n mod connections and by nobody else |
| LoadSchedule.NothingMissedOrDoubled | src/llm_fabric/bench/load.py:410-414 | all connections together fire as many requests as there are arrivals before the deadline |

## Left out

- Redaction of PII over a whole stream: one evaluation is covered, but word boundaries depend on the neighbouring characters and PII is skipped in a pass that found a secret, so deltas can show; no claim is made for it.
- Streaming of payloads that are not text: JSON rendering and the structured-output check of the output guardrail, and the four other guardrail stages.
- The general regular-expression engine: only the shapes of the shipped patterns are modelled, with the digit and word classes as parameters.
- UTF-8 sizes of surrogate characters.
- Calls from the health registry to its Prometheus object, locks, and snapshots for display.
- Starting, stopping and cancelling the monitor's task, and scheduling delays of the event loop.
- The two percent safety margin is taken exactly; floating-point rounding of it is not modelled.
- NFKC, case folding, whitespace rules and SHA-256: content and prompts are compared by an abstract normal form.
- Provenance, visibility, freshness and description of context blocks, the check of a block's own fields, and binding a model's window to a finished record, which only rewrites two reporting fields.
- ContextResults.TokensConserved: with a window it requires that shared ids are harmless, because of the code otherwise it is false (ContextResults.AccountingExact).
- Expiry and outages of the exact cache's backing store: modelled as entries lost at any time and as operations that fail.
- The shortlist written into a request's metadata stays visible to the caller afterwards; the model treats requests as values.
- Latencies, language and version fields of classifications, trace attributes, candidate collection for learning, and the safe-fallback path taken when classification itself raises.
- Classifiers that raise or time out: they are functions that always answer; and a store that fails while a purged index is written back.
- SemanticCache.SemanticIntentCache.Lookup: the index is held by value rather than shared with the backing store.
- Checks on the syntax of intent ids, the time a taxonomy was created, the sorted order of children, and the registry of taxonomies by version.
- IntentTaxonomy.Validate: which of several faults is reported first is not stated.
- Revocation.InMemoryRevocationStore.IsRevoked: one clock reading per call, where the code may read the clock twice; a negative cap, under which eviction would never end, is excluded by type.
- The hash of a token and the verifier that consults the denylist.
- The sorted presentation of label scores and confusion cells: the sums are proved for every order of the labels instead.
- Rounding for reports, macro F1, top-k, Brier score, routing precision, abstention and cache scores of the benchmark, which would only add easy members.
- Counters that are incremented and nothing else (errors, missing, escalations, disagreements), per-layer latency histograms and resetting the counters.
- The request itself in the load generator: sleeping until a tick, latencies, schedule delay, warm-up and the closed loop.
- HTTP, routing, identity, storage, configuration, command line and user interface.
