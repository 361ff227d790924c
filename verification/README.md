# Flowise components: a verified model

This project models seven pieces of the `packages/components/src` package of Flowise and proves what
they promise, for all inputs.

- **Prompt text and JSON text** (`PromptVariables`, `PromptPlaceholders`, `EscapeTokens`, `EscapeInPlace`): the
  stack scanner for prompt variables, what it finds by position in the text, and the rewriter that doubles
  braces around colon text; the sequential token escaper, its inverse, and the recursion that applies it to
  objects in place.
- **Crawling** (`WebCrawl`): a depth-first recursion whose calls share one list of visited pages, and the law
  that fixes the order of that list.
- **Speech streaming** (`SpeechStream`): data, end, error and abort callbacks interleaved with the loop
  that cuts a shared buffer into chunks.
- **Document indexing** (`IndexingModel`, `IndexingProofs`, `IndexingTheorems`, `IndexingSafety`,
  `IndexingTexts`, `IndexingAgain`, `Indexing`): batches of documents written to a record manager and a vector
  store under three cleanup modes, down to every single write, and stopped by a missing source id or by either
  of the two clock checks of a batch; the keys and the texts that are left.
- **Flow generation** (`FlowSearch`, `FlowBreadth`, `FlowOrder`, `FlowGenerator`, `FlowEdges`, `FlowCheck`,
  `FlowExamples`): the backward breadth-first search for a proposing agent, with the order in which nodes come
  up stated without its queue, the loop that rewrites nodes while that search reads them, the update of the edges, which splices hidden ones out and renames handles, and the consistency
  check that repeats the search on the updated edges.
- **Policies** (`AddressDenyList`, `ToolPolicy`): prefix matching of addresses with mapped-address
  normalisation, and the wrapper that guards a tool call.
- **Schemas** (`TypeConversion`, `TypeRepair`, `TypeCoercion`, `RepairInPlace`, `SchemaText`, `SchemaParser`,
  `SchemaSplitting`, `SchemaPrinter`, `SchemaRoundTrip`, `SchemaLayout`, `SchemaLiterals`): the bounded repair loop
  around a schema library, on values and on references to shared memory, with the coercion that it amounts to;
  and the hand-written parser for schema strings, with a printer it undoes, what it refuses, and freely laid out
  text.

Loops, callbacks and objects of the source are methods and classes; each is proved equal to a function of
its inputs or of the old state, and the results are lemmas about those functions. `Common` holds the usual
`Option` and `Result`. Where the source throws, the model returns an error value.

## Assumptions

- Indexing: documents carry no uid of their own, so a document's uid is its hash, kept abstract. Records
  follow the record managers of the repository: an upsert keeps the group of an existing record
  (`packages/components/nodes/recordmanager/SQLiteRecordManager/SQLiteRecordManager.ts:267-270`), and a zero
  `before` is no filter. The database clock, read anew by each update, and the choice made by a limited query
  are arbitrary.
- Crawling: page content is a function of the normalised URL, and the web is finite and fixed.
- Speech: the stream delivers no data after its end event. Callbacks may come at any point between two
  passes through the loop; the source allows fewer such points, so every run of it is covered. The first
  pass comes before any callback, as in the source.
- Addresses: parsed addresses print canonically, so the text of an address is never the text of a name.

## What turned out different

- `transformBracesWithColon` keeps the extracted variables for every text. `getInputVariables` returns the
  list of variables, although its comment announces a boolean.
- A CIDR entry denies its whole interval unless the interval covers the block of mapped addresses: an entry
  such as `::/0` is not applied to IPv4 or mapped addresses (`AddressDenyList.CidrIsInterval`, with the
  witness `AddressDenyList.EverythingEntryPassesIPv4`).
- A second incremental indexing run over the same documents is silent only if no source spans two batches
  (`IndexingAgain.AgainIncremental`, with the witness `IndexingAgain.SpanExample`).
- `updateEdges` loses a visible edge behind one that is hidden for two reasons (`FlowEdges.DropsExactlyHidden`,
  with the witness `FlowEdges.VisibleEdgeLost`).
- In the generator a deterministic binding can be contradicted later (`FlowExamples.UnorderedExample`). What a
  node sees on its turn is final, for every answer of the model and every tool selected before, exactly when
  no agent that it can reach backwards stands behind it in the array (`FlowGenerator.FinalFromAnyTools`);
  cycles and late nodes of other kinds do no harm.
- The consistency check reads the updated edges, not those that the tools were selected on. `updateEdges` renames
  the `true` of an approval gate's handle to `0`, so a tool node behind a gate is never warned about
  (`FlowCheck.GateFedIsSilent`, with the witness `FlowExamples.GateExample`), unless the handle holds a second
  `true` or the gate's id does not name it (`FlowCheck.StillFedExactlyWhen`). The check can warn about a node at
  all exactly when it is a tool node whose search still meets an agent (`FlowCheck.CanWarnExactlyWhen`).
- A tool node that followed its only proposal can be warned about, because an edge was dropped
  (`FlowExamples.LostEdgeExample`). Following proposals is safe, whatever tools the nodes hold, exactly when the
  dropped edges change the order of no two agents (`FlowCheck.FollowingIsSilentExactlyWhen`, and over whole runs
  `FlowCheck.SingleIsSilentExactlyWhen`).
- The schema parser merges an argument list that begins and ends with a string into one string
  (`SchemaPrinter.SeveralArguments`, with the witness `SchemaPrinter.MergeExample`), loses properties named
  `__proto__` at any depth and no others (`SchemaRoundTrip.TypeComesBackExactlyWhen`, with the witness
  `SchemaRoundTrip.ProtoIsLost`), and drops modifiers of the top-level object and of an object in an array
  without checking them (`SchemaRoundTrip.SchemaRoundTrip`, `SchemaRoundTrip.ModifiersInArrayAreLost`). Its list
  of allowed names is applied to modifiers behind objects and arrays and to everything in an array of objects,
  but not to a scalar outside one: a printed type is accepted exactly when these names are allowed
  (`SchemaRoundTrip.TypeComesBackExactlyWhen`, with the witness `SchemaRoundTrip.RefusedExample`).

## Model

| member | source | states |
|---|---|---|
| PromptVariables.GetInputVariables | packages/components/src/utils.ts:239-268 | the index-and-stack loop returns what a recursive reader with open placeholder texts collects |
| PromptPlaceholders.ScannerFindsPairs | packages/components/src/utils.ts:239-268 | on every text, balanced or not, the variables are the contents without a colon of the matched pairs of unescaped braces, in the order of their closing braces |
| PromptPlaceholders.PartnerIsUnique | packages/components/src/utils.ts:248-263 | a closing brace belongs to at most one opening brace |
| PromptVariables.TransformKeepsVariables | packages/components/src/utils.ts:239-295 | for every text, with nested or escaped braces, the rewritten text yields the same variables |
| PromptVariables.RewriteSimulates | packages/components/src/utils.ts:239-295 | the simulation behind it: from stacks no later step can tell apart, original and rewritten rest yield the same variables |
| PromptVariables.TransformDoublesColonBraces | packages/components/src/utils.ts:275-295 | the left-to-right replacement doubles exactly the single brace pairs around brace-free colon text, by position, and keeps every other character |
| PromptVariables.MatchesDisjoint | packages/components/src/utils.ts:279-281 | two such pairs never overlap |
| EscapeTokens.HandleEscapesJSONParse | packages/components/src/utils.ts:701-706 | the loop makes the seven whole-string replacements in table order |
| EscapeTokens.EscapeIsEncode | packages/components/src/utils.ts:691-706 | the sequential replacements equal one simultaneous character-by-character encoding |
| EscapeTokens.EscapeWrites | packages/components/src/utils.ts:691-706 | escaping goes character by character, and each of the seven characters is written as its own word: this fixes the escaped text |
| EscapeTokens.UnescapeStep | packages/components/src/utils.ts:691-706 | on text free of tokens, one backward replacement decodes exactly the tokens of its own character |
| EscapeTokens.UnescapeLeavesNoTokens | packages/components/src/utils.ts:701-706 | no token word is left after unescaping, whatever the input |
| EscapeTokens.RoundTrip | packages/components/src/utils.ts:691-706 | unescaping undoes escaping exactly on the strings that contain none of the seven token words |
| EscapeTokens.EscapeAfterUnescape | packages/components/src/utils.ts:691-706 | unescaping before escaping makes no difference, on every string |
| EscapeTokens.NestedRoundTrip | packages/components/src/utils.ts:708-722 | the same round trip for nested objects and arrays, exactly when no string in them holds a token word |
| EscapeInPlace.Store.IterateEscapesJSONParse | packages/components/src/utils.ts:708-715 | the in-place recursion converts exactly the objects reachable from its argument, also when they are shared, and leaves all others alone |
| EscapeInPlace.Store.Property | packages/components/src/utils.ts:709-713 | one property: a text is overwritten, a reference is followed, anything else stays |
| EscapeInPlace.ConvertedTwice | packages/components/src/utils.ts:701-706 | converting a text twice in one direction is converting it once, which is why sharing does no harm |
| EscapeInPlace.InPlaceIsNested | packages/components/src/utils.ts:708-722 | the value read from the object afterwards is the nested conversion of the value read before |
| EscapeInPlace.InPlaceRoundTrip | packages/components/src/utils.ts:708-722 | escaping and then unescaping in place gives the value back exactly when no text in it holds a token word |
| WebCrawl.Crawler.Crawl | packages/components/src/utils.ts:439-478 | one call leaves the shared list as the specification of the visit says, for every list it starts from; the recursion ends |
| WebCrawl.Run | packages/components/src/utils.ts:486-492 | a whole crawl starts from the empty list |
| WebCrawl.CrawlIsInOrder | packages/components/src/utils.ts:439-492 | under every limit the list begins with the start page, and each next page is that of the first new same-host link of the last listed page that has one; it ends only at the limit or when no page has one |
| WebCrawl.CrawlOrderFixes | packages/components/src/utils.ts:439-492 | only one list obeys that law |
| WebCrawl.SlashIsIgnored | packages/components/src/utils.ts:420-429 | a trailing slash makes no difference to the page of a link |
| WebCrawl.UnlimitedIsReachable | packages/components/src/utils.ts:439-478 | without a limit the list is duplicate-free and holds exactly the pages reachable over same-host links through HTML pages |
| WebCrawl.VisitedOnce | packages/components/src/utils.ts:447-453 | no page is listed twice, with or without a limit |
| WebCrawl.VisitedCloses | packages/components/src/utils.ts:439-478 | an unlimited call leaves no page it added with an unvisited link, although its callers' pages are unfinished |
| WebCrawl.VisitedIsReachable | packages/components/src/utils.ts:439-478 | nothing unreachable is added |
| WebCrawl.LimitIsPrefix | packages/components/src/utils.ts:443-473 | limit k > 0 gives the first min(k, n) pages of the unlimited crawl in the same order |
| WebCrawl.LimitedVisit | packages/components/src/utils.ts:443-473 | the same for every call inside the recursion |
| SpeechStream.Chunker.OnData | packages/components/src/textToSpeech.ts:171-175 | data is appended unless the run was aborted |
| SpeechStream.Chunker.OnEnd | packages/components/src/textToSpeech.ts:177-179 | the end event sets its flag only |
| SpeechStream.Chunker.OnError | packages/components/src/textToSpeech.ts:181-183 | an error rejects a pending promise |
| SpeechStream.Chunker.OnAbort | packages/components/src/textToSpeech.ts:186-192 | the first abort destroys the stream and rejects a pending promise |
| SpeechStream.Chunker.Iterate | packages/components/src/textToSpeech.ts:140-169 | one pass of the emitter loop, or its exit |
| SpeechStream.Chunker.Drain | packages/components/src/textToSpeech.ts:140-169 | left alone after the end event, the loop emits the rest of the buffer in chunks and finishes |
| SpeechStream.StepKeeps | packages/components/src/textToSpeech.ts:140-192 | every callback and every pass keeps the invariant |
| SpeechStream.RunKeeps | packages/components/src/textToSpeech.ts:137-192 | in every interleaving the emitted chunks followed by the buffer are the accepted bytes, every chunk but the last is full, and a short one ends the stream |
| SpeechStream.NothingAfterAbort | packages/components/src/textToSpeech.ts:143-149 | after an abort nothing is emitted or accepted, whatever follows |
| SpeechStream.FinishedRunIsComplete | packages/components/src/textToSpeech.ts:141-169 | a finished run without abort has emitted the whole stream in ceil(n / T) chunks |
| SpeechStream.ChunksShape | packages/components/src/textToSpeech.ts:151-160 | chunks concatenate to the bytes; all have size T but a last one of 1 to T |
| SpeechStream.CeilDivIsCeiling | packages/components/src/textToSpeech.ts:151-160 | the chunk count is the rounded-up quotient |
| SpeechStream.ResolvedMeansDelivered | packages/components/src/textToSpeech.ts:140-192 | the promise resolves only after every byte that arrived went out, also when an abort comes before or after |
| SpeechStream.AbortedFromTheStart | packages/components/src/textToSpeech.ts:141-149 | a signal aborted before the call stops the loop on its first pass: nothing is emitted and the promise stays rejected |
| SpeechStream.PromiseIs | packages/components/src/textToSpeech.ts:140-195 | in every run the promise is rejected exactly when an error or an abort came while the loop was running, resolved exactly when the loop finished before any, and pending otherwise |
| SpeechStream.DestroyedExactlyWhen | packages/components/src/textToSpeech.ts:143-192 | the stream is destroyed exactly when the call was aborted |
| SpeechStream.LoopEnds | packages/components/src/textToSpeech.ts:141-169 | after the end event the loop exits in exactly ceil(b / T) + 1 further passes and not before |
| Indexing.RecordManager.Exists | packages/components/nodes/recordmanager/SQLiteRecordManager/SQLiteRecordManager.ts:287-323 | tells for each key whether it is recorded |
| Indexing.RecordManager.Update | packages/components/nodes/recordmanager/SQLiteRecordManager/SQLiteRecordManager.ts:239-285 | stamps all keys or, when the clock runs behind, writes nothing; no keys means no check |
| Indexing.RecordManager.ListKeys | packages/components/nodes/recordmanager/SQLiteRecordManager/SQLiteRecordManager.ts:325-376 | the keys older than `before` in the given groups; with a limit, that many of them, any |
| Indexing.RecordManager.DeleteKeys | packages/components/nodes/recordmanager/SQLiteRecordManager/SQLiteRecordManager.ts:378-400 | removes the given keys and no others |
| Indexing.BatchItems | packages/components/src/indexing.ts:175-193 | the pushing loop cuts the list into batches, a size below one acting as one |
| IndexingTheorems.BatchedShape | packages/components/src/indexing.ts:175-193 | batches concatenate to the list, are never empty, and all but the last are full |
| Indexing.DeduplicateInOrder | packages/components/src/indexing.ts:195-210 | the loop over a seen-set keeps first occurrences in order |
| IndexingTheorems.DeduplicatedKeepsFirst | packages/components/src/indexing.ts:195-210 | what is kept is the first document with its hash |
| IndexingProofs.DeduplicatedIsDistinct | packages/components/src/indexing.ts:195-210 | no hash is kept twice, and only documents of the list are kept |
| Indexing.Partition | packages/components/src/indexing.ts:297-315 | the documents to stamp, those to store and the forced ones, from one existence query |
| IndexingProofs.PartitionSizes | packages/components/src/indexing.ts:303-331 | the sizes of these groups as sizes of sets of uids |
| Indexing.WriteBatch | packages/components/src/indexing.ts:317-336 | the stores and counts after the writes of a batch, including both ways the clock check stops it midway |
| Indexing.CleanupBatch | packages/components/src/indexing.ts:342-348 | deletes the stale keys of the batch's sources from both stores |
| Indexing.IndexBatch | packages/components/src/indexing.ts:283-350 | one batch makes exactly the writes, counts and errors of its specification |
| Indexing.IndexBatches | packages/components/src/indexing.ts:281-350 | all batches in order, stopped by the first error |
| Indexing.CleanupFull | packages/components/src/indexing.ts:352-366 | the delete loop ends, carries out rounds the database deals it, and counts what it deletes |
| Indexing.Index | packages/components/src/indexing.ts:257-378 | a call of `index` is a run of the specification: final stores, counters, total and error |
| IndexingProofs.BatchKeys | packages/components/src/indexing.ts:283-350 | the keys, stamps and groups after one batch |
| IndexingProofs.BatchCounts | packages/components/src/indexing.ts:317-348 | the counters of one batch as sizes of sets of keys |
| IndexingProofs.BatchSync | packages/components/src/indexing.ts:317-348 | stores that agree before a batch agree after it |
| IndexingProofs.RunKeys | packages/components/src/indexing.ts:281-350 | the keys after all batches, although a batch may delete a key that a later one adds back |
| IndexingTheorems.PlanCovers | packages/components/src/indexing.ts:281-286 | batching and clock change neither the uids nor the sources that are processed |
| IndexingTheorems.IndexKeys | packages/components/src/indexing.ts:257-366 | the closed form of the final keys, for every document list, prior state, batch size, clock and cleanup mode |
| IndexingTheorems.IndexKeysOlder | packages/components/src/indexing.ts:257-366 | with only older prior records: old keys plus uids, exactly the uids, or the uids plus the old keys whose source was not seen |
| IndexingTheorems.BatchSizeIrrelevant | packages/components/src/indexing.ts:281-366 | two runs that differ in batch size, clock, forced update and order of deletion end with the same keys |
| IndexingTheorems.IndexCounts | packages/components/src/indexing.ts:273-376 | total keys = prior keys + added - deleted; added + updated + skipped = all deduplicated documents; addedDocs has length added + updated |
| IndexingTheorems.IndexAddsNew | packages/components/src/indexing.ts:322-331 | without incremental cleanup numAdded is the number of distinct new uids, whatever the batch size |
| IndexingTheorems.IndexSync | packages/components/src/indexing.ts:281-366 | recorded keys and stored ids that agree before a run agree after it |
| IndexingTexts.BatchTexts | packages/components/src/indexing.ts:297-348 | the texts after one batch: new bodies for documents that were not recorded or are forced, every other text as it was unless deleted |
| IndexingTexts.RunTexts | packages/components/src/indexing.ts:281-350 | the same over all batches: a key deleted by one batch and added back by a later one has the new body |
| IndexingTexts.IndexTexts | packages/components/src/indexing.ts:257-366 | the closed form of the final texts of every run without error, for every batch size, clock and cleanup mode, when documents with one uid have one body |
| IndexingTexts.IndexReports | packages/components/src/indexing.ts:317-376 | the documents and deletions that a run reports are those it wrote, in order, also when it throws |
| IndexingTheorems.CleanupEffect | packages/components/src/indexing.ts:352-366 | however keys are dealt out, full cleanup deletes each stale key once and nothing else |
| IndexingTheorems.CleanupEnds | packages/components/src/indexing.ts:352-366 | it needs no more rounds than stale keys, and with a limit at most their rounded-up quotient |
| IndexingSafety.IndexSafe | packages/components/src/indexing.ts:317-366 | after every single write of every run, also one stopped by a source id or by either clock check of a batch, recorded keys are stored, except between a store delete and its key delete |
| IndexingSafety.BatchSafe | packages/components/src/indexing.ts:317-349 | the same for one batch, wherever it throws |
| IndexingSafety.IndexThrows | packages/components/src/indexing.ts:261-341 | with a clock that never runs behind, a run throws exactly when incremental cleanup lacks a source id |
| IndexingAgain.AgainPlain | packages/components/src/indexing.ts:283-366 | without cleanup, and with full cleanup over older records, a second run adds and deletes nothing and keeps the keys |
| IndexingAgain.AgainIncremental | packages/components/src/indexing.ts:283-349 | with incremental cleanup a second run keeps the keys, and adds and deletes nothing exactly when no source spans two batches |
| IndexingAgain.SpanExample | packages/components/src/indexing.ts:283-349 | two documents of one source in batches of one are such a source |
| FlowSearch.FindProposingAgentTools | packages/components/src/agentflowv2Generator.ts:427-454 | the queue loop ends after at most one dequeue per edge plus one, on any graph |
| FlowSearch.ProposingToolsAreNearest | packages/components/src/agentflowv2Generator.ts:427-454 | past the shape test, the tools of a tool-bearing agent at minimum backward distance in the graph without the start node |
| FlowSearch.EmptyExactlyWhen | packages/components/src/agentflowv2Generator.ts:427-454 | no tools exactly when the shape test fails or no tool-bearing agent is upstream |
| FlowSearch.WalkIsCorrect | packages/components/src/agentflowv2Generator.ts:437-453 | the breadth-first invariant: two adjacent distance levels in the queue |
| FlowSearch.NonEmptyKeepsOrder | packages/components/src/agentflowv2Generator.ts:446 | empty tool names are passed over and the others keep their order |
| FlowBreadth.SearchIsBreadthFirst | packages/components/src/agentflowv2Generator.ts:427-454 | if the first edge into the node passes the shape test, the tools are those of the first node with any, in the breadth-first order behind that edge; otherwise there are none |
| FlowBreadth.VisitsAreBreadthFirst | packages/components/src/agentflowv2Generator.ts:437-453 | the queue brings the nodes up in that order: each next one is the source of the first edge, of the earliest node that has one, to a node not met before |
| FlowBreadth.BreadthFirstIsUnique | packages/components/src/agentflowv2Generator.ts:437-453 | there is one such order |
| FlowOrder.WalkIsFirstTools | packages/components/src/agentflowv2Generator.ts:437-453 | the search returns the tools of the first agent that has any, in an order that does not depend on tools |
| FlowOrder.SeenExactly | packages/components/src/agentflowv2Generator.ts:427-453 | that order lists exactly the agents that can be reached backwards once the shape test is passed |
| FlowOrder.SameToolsExactlyWhen | packages/components/src/agentflowv2Generator.ts:437-453 | two such orders give the same tools, whatever tools the nodes hold, if and only if they are equal |
| FlowOrder.NoContradictionExactlyWhen | packages/components/src/agentflowv2Generator.ts:437-453 | the tools of one order always show in those of the other, if that has any, if and only if no pair of agents changes places |
| FlowGenerator.GenerateSelectedTools | packages/components/src/agentflowv2Generator.ts:456-639 | the loop writes the node array in order, each turn reading what the turns before it wrote |
| FlowGenerator.ProposalsAreFinal | packages/components/src/agentflowv2Generator.ts:456-639 | if no agent that a node can reach backwards stands behind it, what it saw on its turn is what the finished flow shows, on any graph, for every answer of the model and any tools selected before |
| FlowGenerator.SettledNodeIs | packages/components/src/agentflowv2Generator.ts:456-639 | such a node as the finished flow has it, from what that flow shows: own tools followed by those it reuses or else by the answer, or bound to the only tool it can reuse or else to the first answer |
| FlowGenerator.FinalExactlyWhen | packages/components/src/agentflowv2Generator.ts:456-639 | from agents without tools, this holds for every answer of the model if and only if no such agent stands behind the node |
| FlowGenerator.FinalFromAnyTools | packages/components/src/agentflowv2Generator.ts:456-639 | the same equivalence over all tools selected before the loop, for every flow |
| FlowGenerator.LateAgentShows | packages/components/src/agentflowv2Generator.ts:456-639 | an agent behind the node and one answer make the node see nothing on its turn and a tool in the finished flow |
| FlowGenerator.SeesOnlyEarlier | packages/components/src/agentflowv2Generator.ts:427-454 | a node with no such agent behind it sees nothing of the nodes from its own position on |
| FlowEdges.CollectHidden | packages/components/src/agentflowv2Generator.ts:361-373 | the delete list holds one index for each reason an edge is hidden |
| FlowEdges.KnownAndHiddenAre | packages/components/src/agentflowv2Generator.ts:355-373 | an edge is known if a node stands at either end, and hidden if the first node at an end hides that handle |
| FlowEdges.SpliceOut | packages/components/src/agentflowv2Generator.ts:376-378 | the backward loop splices the listed indices out |
| FlowEdges.DropHiddenEdges | packages/components/src/agentflowv2Generator.ts:355-378 | the edges left over, as a recursive selection |
| FlowEdges.SplicedIsSurvivors | packages/components/src/agentflowv2Generator.ts:361-378 | an edge listed twice takes the next surviving edge with it |
| FlowEdges.DropsExactlyHidden | packages/components/src/agentflowv2Generator.ts:361-378 | exactly the hidden edges go if and only if no edge hidden for both reasons stands before a visible one |
| FlowEdges.VisibleEdgeLost | packages/components/src/agentflowv2Generator.ts:361-378 | two edges of which the visible one is lost |
| FlowEdges.KeepsAllExactlyWhen | packages/components/src/agentflowv2Generator.ts:355-378 | nothing is dropped if and only if every edge touches a node and none is hidden |
| FlowEdges.UpdateEdges | packages/components/src/agentflowv2Generator.ts:346-408 | the edges left, in order, each with its handle renamed as it must be |
| FlowEdges.RenamedIs | packages/components/src/agentflowv2Generator.ts:347-405 | behind a gate or condition the first `true` of a handle becomes `0`, or failing that the first `false` becomes `1`; all else of an edge, and every other edge, is kept |
| FlowEdges.BranchesStayApart | packages/components/src/agentflowv2Generator.ts:395-405 | the approved and the rejected branch of a gate keep different handles |
| FlowEdges.StillTrue | packages/components/src/agentflowv2Generator.ts:398-399 | after the first `true` of a handle is renamed, there is still one if and only if there were two |
| FlowEdges.RenamedTrue | packages/components/src/agentflowv2Generator.ts:347-405 | which renamed edges still count as an approved branch |
| FlowCheck.GenerateFlow | packages/components/src/agentflowv2Generator.ts:174-192 | tools are selected on the edges as drawn, and exactly the tool nodes mismatched on the updated edges are warned about |
| FlowCheck.MismatchWarnings | packages/components/src/agentflowv2Generator.ts:267-281 | the check visits every tool node in order |
| FlowCheck.WarnedIffMismatched | packages/components/src/agentflowv2Generator.ts:267-281 | it warns about a node exactly when its bound tool is not among the tools its search gives |
| FlowCheck.StillFedExactlyWhen | packages/components/src/agentflowv2Generator.ts:395-435 | the inbound edge that is left passes the shape test under its new handle: from an agent always, from a gate only if its id is not recognised or its handle had two `true`s |
| FlowCheck.CheckSees | packages/components/src/agentflowv2Generator.ts:346-453 | on the updated edges the search meets the agents it would meet on the edges left, in the same order, or none after renaming |
| FlowCheck.ChecksFirstTools | packages/components/src/agentflowv2Generator.ts:267-281 | for every flow, exactly when the check warns, in terms of the edges as drawn |
| FlowCheck.GateFedIsSilent | packages/components/src/agentflowv2Generator.ts:267-281 | a tool node behind an approval gate is never warned about, whatever tools the flow holds |
| FlowCheck.CanWarnExactlyWhen | packages/components/src/agentflowv2Generator.ts:174-192 | from agents without tools, some answers of the model make the check warn about a node, if and only if it is a tool node whose search on the updated edges meets an agent |
| FlowCheck.WarnsExactlyWhen | packages/components/src/agentflowv2Generator.ts:174-192 | when the dropped edges do not change the agents that a node with no late agent meets: warned about if and only if it is still fed after renaming, was offered several tools and is bound to another |
| FlowCheck.NothingDropped | packages/components/src/agentflowv2Generator.ts:355-378 | this is so for every node when every edge is known and none is hidden |
| FlowCheck.SeesTheSameExactlyWhen | packages/components/src/agentflowv2Generator.ts:346-453 | the loop and the check see the same tools, whatever tools the nodes hold, if and only if they meet the same agents in the same order |
| FlowCheck.FollowingIsSilentExactlyWhen | packages/components/src/agentflowv2Generator.ts:267-281 | a node bound to one of its proposals is never warned about, whatever tools the nodes hold, if and only if no two agents change order |
| FlowCheck.FollowingRunIsSilent | packages/components/src/agentflowv2Generator.ts:174-192 | over whole runs, a node with no late agent and no such pair that ends bound to a tool it was offered is not warned about |
| FlowCheck.SingleIsSilentExactlyWhen | packages/components/src/agentflowv2Generator.ts:174-192 | over whole runs from agents without tools, none of which copies: a node with no late agent that saw one tool is never warned about, for any answers, if and only if there is no such pair |
| FlowCheck.SingleProposalIsBound | packages/components/src/agentflowv2Generator.ts:586-601 | on the edges the loop reads: a tool node with no late agent that saw one tool ends bound to it and still sees just that tool |
| FlowCheck.MismatchedOnLoopEdges | packages/components/src/agentflowv2Generator.ts:586-634 | on the edges the loop reads: such a node is mismatched if and only if it was offered several tools and is bound to another |
| FlowExamples.GateExample | packages/components/src/agentflowv2Generator.ts:174-192 | a run in which a tool from elsewhere behind a gate goes unnoticed |
| FlowExamples.LostEdgeExample | packages/components/src/agentflowv2Generator.ts:174-192 | a run in which the only proposal is followed and warned about |
| FlowExamples.UnorderedExample | packages/components/src/agentflowv2Generator.ts:174-192 | a run with a late agent in which a deterministic binding is warned about |
| AddressDenyList.IsDeniedIP | packages/components/src/httpSecurity.ts:57-114 | the loop gives the verdict of the first entry that does not let the normalised address pass |
| AddressDenyList.AllowedByAll | packages/components/src/httpSecurity.ts:70-113 | an address passes exactly when every entry lets it pass |
| AddressDenyList.FirstEntryDecides | packages/components/src/httpSecurity.ts:57-114 | the verdict on every address and list, on the number line: the first entry that covers the address denies it, a single address being its one number, unless that entry does not parse |
| AddressDenyList.PrefixIsInterval | packages/components/src/httpSecurity.ts:85-89 | agreement in the first bits is membership of one interval of numbers around the range address |
| AddressDenyList.MappedPrefix | packages/components/src/httpSecurity.ts:78-82 | comparing k bits of IPv4 addresses is comparing 96 + k bits of their mapped forms |
| AddressDenyList.CidrDenies | packages/components/src/httpSecurity.ts:71-90 | which addresses a CIDR entry denies, as 128-bit numbers |
| AddressDenyList.CidrIsInterval | packages/components/src/httpSecurity.ts:71-90 | an entry denies exactly its interval (section 3.1 of RFC 4632) if and only if the interval does not cover the mapped block |
| AddressDenyList.EverythingEntryPassesIPv4 | packages/components/src/httpSecurity.ts:71-90 | the entry `::/0` covers every address and lets every IPv4 address pass |
| AddressDenyList.MappedFormsAgree | packages/components/src/httpSecurity.ts:57-114 | mapped and IPv4 forms of addresses and entries (section 2.5.5.2 of RFC 4291) get the same verdict, for every address and list |
| ToolPolicy.WrappedTool.Invoke | packages/components/src/toolPolicy.ts:326-341 | one wrapped call: its result or error, the audit and observation rows it appends, and whether the tool ran |
| ToolPolicy.WrappedTool.ApplyPromptInjectionWrapping | packages/components/src/toolPolicy.ts:263-279 | text results are wrapped only when the guardrail is enabled and promoted |
| ToolPolicy.ObservingChangesNothing | packages/components/src/toolPolicy.ts:99-170 | with nothing promoted, any two contents of the guardrail tables give the same result or error, audit rows and execution |
| ToolPolicy.ObservedHistoriesAgree | packages/components/src/toolPolicy.ts:99-343 | the same over any sequence of calls, with a tool that remembers its runs and tables that change between calls |
| ToolPolicy.ObservedIsUnguarded | packages/components/src/toolPolicy.ts:316-343 | with nothing promoted, a call is its allowlist and credential decision followed by the bare tool, but for the rows it notes on the side |
| ToolPolicy.GuardrailsDecideExactlyWhen | packages/components/src/toolPolicy.ts:218-341 | an allowed call is blocked or altered exactly when a promoted guardrail fires on it |
| ToolPolicy.OneAuditPerCall | packages/components/src/toolPolicy.ts:326-337 | a call with successful policy reads attempts one audit write, which says allowed exactly when the tool runs |
| ToolPolicy.AuditsTally | packages/components/src/toolPolicy.ts:326-341 | over any sequence of calls with successful policy reads there are as many audit rows as calls and as many allowed ones as tool runs |
| ToolPolicy.AllowedExactlyWhen | packages/components/src/toolPolicy.ts:27-90 | with readable tables, exactly which calls the allowlist, ownership, grants and shared workspaces allow |
| ToolPolicy.FailsExactlyWhen | packages/components/src/toolPolicy.ts:27-90 | a table that cannot be read fails the call exactly when the decision comes to need it |
| ToolPolicy.DeniedFor | packages/components/src/toolPolicy.ts:54-86 | a refusal names the tool if the allowlist refuses, and the credential otherwise |
| ToolPolicy.GuardrailIsOnExactlyWhen | packages/components/src/toolPolicy.ts:99-138 | the row of the chatflow speaks before that of the workspace, and its own config before the catalogue's default |
| ToolPolicy.EgressReportsExactlyWhen | packages/components/src/toolPolicy.ts:218-243 | egress filtering reports a pattern exactly when it is on and that pattern, not empty, is the first to occur in the arguments |
| ToolPolicy.ObservesOnce | packages/components/src/toolPolicy.ts:175-279 | a call leaves one observation for each attached guardrail it comes to and no other, saying whether it fired |
| TypeConversion.ParseWithTypeConversion | packages/components/src/utils.ts:1964-2115 | the issue loop and the recursion compute the repaired value, the result and the number of attempts |
| TypeConversion.AttemptsBounded | packages/components/src/utils.ts:1964-1971 | at most maxDepth parse attempts |
| TypeConversion.OutputAccepted | packages/components/src/utils.ts:1970-1971 | what the schema library returns it accepts again unchanged |
| TypeConversion.ReturnsAccepted | packages/components/src/utils.ts:1964-2115 | only values the schema accepts are returned |
| TypeCoercion.ParseIsCoercion | packages/components/src/utils.ts:1964-2115 | for a schema less deep than maxDepth, the parse returns a value if and only if the root is of the right type and that value is the coercion of the argument, defined without the repair: which value stands at every path |
| TypeCoercion.ParseComes | packages/components/src/utils.ts:1964-2115 | for every schema and maxDepth, whatever is returned is that coercion |
| TypeCoercion.RepairedComes | packages/components/src/utils.ts:2011-2105 | one round of repairs does not change what a value comes out as |
| TypeCoercion.ComesOnce | packages/components/src/utils.ts:2011-2077 | a value has at most one coercion |
| TypeCoercion.BooleanComesBack | packages/components/src/utils.ts:2034-2042 | a printed boolean is repaired into the boolean it came from |
| RepairInPlace.Memory.ParseWithTypeConversion | packages/components/src/utils.ts:1964-2115 | on references, with shared objects allowed: every cell that existed before the call is as it was, what is returned is accepted, and attempts are bounded; on a tree the result and attempts are those of the value-level parse |
| RepairInPlace.Memory.RepairClone | packages/components/src/utils.ts:1976-2105 | one pass of edits on the clone writes no old cell and, on a tree, ends with the repaired value |
| RepairInPlace.Memory.CloneDeep | packages/components/src/utils.ts:1977 | the copy stands for the same value in new cells that mirror the old ones, sharing included |
| RepairInPlace.MirrorHolds | packages/components/src/utils.ts:1977 | the copy of a tree is a tree |
| RepairInPlace.Written | packages/components/src/utils.ts:1981-1995 | a conversion put at a path of a clone with shared cells leaves a clone, apart from all older cells |
| RepairInPlace.WrittenTree | packages/components/src/utils.ts:1981-1995 | on a tree, it leaves the value edited at the path |
| RepairInPlace.Memory.SetValueAtPath | packages/components/src/utils.ts:1981-1995 | the walk along the path makes one write, into the container of its last step |
| RepairInPlace.SetHolds | packages/components/src/utils.ts:1981-1995 | after that write the memory stands for the value edited at the path |
| RepairInPlace.SetTouches | packages/components/src/utils.ts:1981-1995 | no cell outside the edited value is written |
| RepairInPlace.AllocHolds | packages/components/src/utils.ts:1977 | a value written to new cells is held by exactly those cells |
| TypeRepair.FixAllIsRepaired | packages/components/src/utils.ts:1981-2105 | working the issues off one by one by path is one structural repair of the value |
| TypeRepair.RepairDeepens | packages/components/src/utils.ts:2086-2111 | if every issue converts, the next issues lie at least one level deeper |
| TypeRepair.IssuesWithinDepth | packages/components/src/utils.ts:1970-1971 | no issue lies below the schema's last level |
| TypeRepair.ConvertibleSucceeds | packages/components/src/utils.ts:1964-2115 | if every mismatch met lies below the root and converts, the parse succeeds whenever the schema's depth is below maxDepth |
| TypeRepair.DepthBoundIsSharp | packages/components/src/utils.ts:1964-1968 | a schema as deep as maxDepth fails on one convertible mismatch |
| SchemaParser.SplitProperties | packages/components/src/secureZodParser.ts:91-126 | the character loop with depth and quote state computes the recursive splitter |
| SchemaParser.ParseArrayContent | packages/components/src/secureZodParser.ts:330-359 | the same for the items of a bracketed list |
| SchemaParser.FindArrayEnd | packages/components/src/secureZodParser.ts:361-376 | the loop that looks for the parenthesis closing an array |
| SchemaParser.FindObjectEnd | packages/components/src/secureZodParser.ts:412-435 | the loop that looks for the end of an object, counting braces and parentheses |
| SchemaSplitting.SplitJoin | packages/components/src/secureZodParser.ts:91-126 | splitting undoes joining, for any list of trimmed non-empty pieces with balanced brackets, closed quotes and no comma outside them |
| SchemaSplitting.SplitThrough | packages/components/src/secureZodParser.ts:97-120 | balanced text is taken into the current piece as a whole, at any depth and inside any quote |
| SchemaSplitting.NeutralQuoted | packages/components/src/secureZodParser.ts:100-104 | a text in single or double quotes, with that quote only behind backslashes, counts as balanced, whatever commas or brackets it holds |
| SchemaSplitting.SplitLooseJoin | packages/components/src/secureZodParser.ts:91-126 | splitting undoes joining up to the spaces around the pieces |
| SchemaSplitting.TrimDrops | packages/components/src/secureZodParser.ts:122-124 | trimming takes the spaces at both ends and nothing else |
| SchemaPrinter.ItemsRoundTrip | packages/components/src/secureZodParser.ts:330-359 | a printed list of strings is read back item by item |
| SchemaPrinter.ArgumentsRoundTrip | packages/components/src/secureZodParser.ts:303-328 | printed arguments are read back: none, one number, string or list, or several simple ones |
| SchemaPrinter.SeveralArguments | packages/components/src/secureZodParser.ts:303-328 | several simple arguments are read back if and only if they do not begin and end with a string |
| SchemaPrinter.StringsMerge | packages/components/src/secureZodParser.ts:303-328 | two string arguments come back as the one string between their outer quotes |
| SchemaPrinter.MergeExample | packages/components/src/secureZodParser.ts:303-328 | such a pair |
| SchemaPrinter.ComplexArgumentsRoundTrip | packages/components/src/secureZodParser.ts:495-508 | the same behind objects; no printed list is taken for an object literal |
| SchemaLiterals.LiteralRoundTrip | packages/components/src/secureZodParser.ts:495-545 | a printed object literal behind an object is read back entry by entry |
| SchemaRoundTrip.CloseOfCall | packages/components/src/secureZodParser.ts:361-376 | the search for the end of a call stops at its own parenthesis |
| SchemaRoundTrip.CloseOfObject | packages/components/src/secureZodParser.ts:412-435 | the search for the end of an object stops at its own brace and parenthesis |
| SchemaRoundTrip.ObjectContentOf | packages/components/src/secureZodParser.ts:67-72 | the pattern for an object's content finds all of it and nothing behind it |
| SchemaRoundTrip.ObjectModifiersRoundTrip | packages/components/src/secureZodParser.ts:448-490 | the modifier loop behind an object reads printed modifiers back |
| SchemaRoundTrip.ChainRoundTrip | packages/components/src/secureZodParser.ts:389-407 | a chain of printed modifiers split at its dots is read back |
| SchemaRoundTrip.ScalarRoundTrip | packages/components/src/secureZodParser.ts:184-232 | scalars and enums with their arguments and modifiers are read back |
| SchemaPrinter.KeptIsWhole | packages/components/src/secureZodParser.ts:75-89 | removing the properties that cannot be assigned changes a tree exactly when some property at some depth is named `__proto__` |
| SchemaPrinter.AllowedAre | packages/components/src/secureZodParser.ts:7-21 | the thirteen names that are allowed |
| SchemaPrinter.TypeValidates | packages/components/src/secureZodParser.ts:275-301 | the check of the properties that were kept passes exactly when every base and scalar modifier at any depth is allowed, and otherwise blames one that is not |
| SchemaRoundTrip.FieldsRoundTrip | packages/components/src/secureZodParser.ts:75-136 | the printed properties of an object are read back, keys, values and order of assignment, but for those named `__proto__`, unless a name in them is refused |
| SchemaRoundTrip.TypeRoundTrip | packages/components/src/secureZodParser.ts:57-490 | for every printable schema tree of scalars, enums, nested objects, arrays and arrays of objects, parsing the printed text gives the tree without properties named `__proto__` exactly when the names the parser checks are allowed, and otherwise an error for a base or modifier of the tree that is not |
| SchemaRoundTrip.TypeComesBackExactlyWhen | packages/components/src/secureZodParser.ts:57-490 | a printed tree is accepted if and only if modifiers behind arrays and objects, and all names in arrays of objects, are allowed; it comes back as it was if and only if besides no property at any depth is named `__proto__` |
| SchemaRoundTrip.SchemaRoundTrip | packages/components/src/secureZodParser.ts:57-89 | the same for a whole schema string, with the same equivalence; modifiers of the top-level object are dropped and not checked |
| SchemaRoundTrip.ProtoIsLost | packages/components/src/secureZodParser.ts:81-86 | a schema whose only property is lost |
| SchemaRoundTrip.RefusedExample | packages/components/src/secureZodParser.ts:235-301 | a `regex` modifier in an array of objects is refused by that name |
| SchemaLayout.LayoutIsFree | packages/components/src/secureZodParser.ts:75-136 | with spaces around keys and values, keys in quotes of either kind and keys that come again, parsing succeeds exactly when every value is accepted, and then each key has the value last given to it |
| SchemaRoundTrip.ModifiersInArrayAreLost | packages/components/src/secureZodParser.ts:235-261 | an object in an array comes back without its modifiers, whatever they are, and is accepted as if it had none |

## Left out

- SHA-256, UUIDs and JSON text: uids and text conversions are abstract functions; the hash is not assumed injective.
- Indexing: the namespace rewrite (`packages/components/src/indexing.ts:265-267`), document ids, missing (undefined) source ids, documents without a hash, failures of the database or the vector store, and concurrent writers.
- Indexing.RecordManager.Update: does not model the document id column, nor the rows already written when the database fails in the middle of the loop.
- The vector store: a map from id to text that overwrites; embeddings and similarity search are not modelled.
- WebCrawl.Run: does not model the deny-list check on the first URL or the trailing slash cut off it; fetching, HTML parsing and URL parsing are the fixed web and the `Url` parts.
- PromptVariables.GetInputVariables: does not model arguments that are not strings, for which the source returns no variables.
- EscapeInPlace.Store.IterateEscapesJSONParse: does not model cyclic objects, on which the source does not end, nor inherited properties.
- EscapeTokens and PromptVariables: texts are sequences of characters; UTF-16 code units are not modelled.
- Speech: timing, the `onEnd` and `onStreamDestroy` callbacks, the speech services, and what completes after a stream error.
- FlowGenerator.GenerateSelectedTools: does not model prompts, the running list of selected tools, agent instructions, router content or tool configurations; the language model is an arbitrary function of the node's position.
- FlowSearch.FindProposingAgentTools: does not model an inbound edge without a source handle behind an approval gate, on which the source throws.
- The other checks of `validateAndRepairFlow`, and the colours, labels and ids of edges in `updateEdges`: single lookups.
- FlowEdges.UpdateEdges: does not model edges without a source handle, on which the source throws.
- FlowCheck.FollowingRunIsSilent: for runs in which agents copy each other's tools it says only what suffices; the equivalences are about the tools held (`FlowCheck.FollowingIsSilentExactlyWhen`) and about runs without copies (`FlowCheck.SingleIsSilentExactlyWhen`).
- AddressDenyList.IsDeniedIP: does not model the parsing of addresses and CIDR text, zone ids included, which `ipaddr.js` does and which is not part of this model; an unreadable entry is its own case.
- The redirect loops and name lookups around the deny list: mostly network calls.
- ToolPolicy.WrappedTool.Invoke: does not model missing database handles, arrays of tools, tools without a `_call`, clock readings in observation rows or failed audit writes.
- TypeConversion.ParseWithTypeConversion: works on values; what happens to memory is in `RepairInPlace`. Objects list their entries in key order; the schema library is modelled for strings, numbers, booleans, enums, objects, arrays and optional values, with all issues reported.
- RepairInPlace.Memory.ParseWithTypeConversion: does not model cyclic arguments; for arguments that share objects it does not say which repairs are made, since one edit then shows at several paths. An array made from an array-like object gets new cells for its items.
- Schema strings: comment stripping (`cleanSchemaString`) and the build step that turns parsed types into schemas. Records keep the order of assignment, while JavaScript lists integer-like keys first.
- SchemaRoundTrip.TypeRoundTrip: does not cover strings with dots, parentheses, braces, quotes, backslashes or line ends, or names other than words, which the parser does not keep or reads differently; object literals are read back as arguments (`SchemaLiterals.LiteralRoundTrip`), not inside trees.
- Credential classes, user interface, agent executors, analytics and caches: tables or thin wrappers.
