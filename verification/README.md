# A verified model of stage ordering, shared MCP configuration and their neighbours

The model covers the parts of the repository that compute something from unbounded input:

- **Pipeline stage ordering** (`StageGraph`, `PipelineBlock`, `PipelineOrdering`, `PipelineCompose`): merging any
  number of stage lists by Kahn's algorithm with a first-seen tie-break and a fallback for cycles, and composing the
  numbered block from it. `PipelineOrdering` holds the loops over hash maps, with the hash order an arbitrary choice;
  `PipelineBlock.CanonicalOrder` is the order they are proved to compute.
- **Shared MCP configuration**: ten agents store MCP servers in their own shapes. `McpDefinition` has the parser, the
  printer and the round trip between them; `McpPrinter` the printer's and the credential restorer's imperative form;
  `McpNames` identifiers; `McpGateway` redaction and restoration of gateway credentials; `McpPlan` and `McpPlanLaws`
  the write plan; `McpReconcile` and `McpReconcileLaws` the merge of all profiles into servers and conflicts;
  `McpNative` what the parser reads and the printer writes, member by member; `McpVariants` which saved entries share a
  server or a conflict's variant; `McpRedaction` which credentials a reader is shown; `McpRestore` when a placeholder is
  put back as it was, once and again; `McpSave` the replacement of placeholders before a save and what a reader who saves
  a gateway server unmodified gets back; `McpResend` the whole read response sent back; `McpConvergence` validation and
  the law that saving converges; `Fingerprint` the sorted form definitions are compared by.
- **Native configuration files**: `ConfigPath` is the lens on the section that holds the servers, `CommentMerge` the
  deep merge that keeps comments, `CommentOrder` the order it leaves, `Adapters` the catalogue's native adapters.
- **Profiles** (`Profiles`): the diff and patch of profile overrides, and key canonicalisation.
- **Scanners and tables**: `GitStatus` parses `git status --porcelain -z`, `SshConfig` replaces a host's block,
  `SftpHandles` is the handle table of the SFTP server.

`Text`, `Json` and `Sequences` hold the shared vocabulary. A hash map's iteration order is arbitrary everywhere: methods
choose the next key with `:|`, and functions take a parameter (`Pick` for the first match in an object, `KeyOrder` for
the order of variant keys, `Lists` for the order sources are visited in), so that every lemma holds for every order. The
runtime route table is a parameter too.

## Where the code keeps its promise only under a condition

Each of these promises fails for some input; the model keeps the code as it is, gives a lemma with such an input, and
proves when the promise holds.

- What is read of a gateway server should hold no credential. A response shows one — in a definition, a source or an
  assignment — exactly when a saved entry is exposed: it holds a credential and is not recognised as a gateway server,
  or is recognised but not understood and has it in `http_headers`. So a disabled Codex entry is shown in clear, and a
  disabled Gemini entry, whose address is in `httpUrl` (`McpRedaction.ResponseShowsExposed`, `DisabledTableIsShown`,
  `DisabledHttpUrlIsShown`).
- A gateway server with one Authorization header, whose definition is printable for the executor, is read and saved
  unmodified. It keeps its meaning exactly when the program, which replaces the placeholder by the first credential it
  finds for the server's URL, finds the server's own (or a placeholder that was saved itself, which the entry's own tables
  restore). Where the saved servers at that URL have one Authorization header each, it does so in every hash order exactly
  when the first configuration that has a credential for the URL has none for it but the server's own, or such a
  placeholder; otherwise some order gives one server the other's (`McpSave.ReadThenSaveIsLossless`,
  `LosslessInEveryOrder`, `SharedUrlSwaps`). Where all saved servers at a URL share the credential, the whole response can
  be sent back: it is accepted, and every executor keeps the very entries it has, under their identifiers where those are
  not their names yet (`McpResend.ResponseSentBack`).
- A native override that holds the entry as it was shown, with one Authorization header, keeps its meaning exactly under
  `KeepsShown`: its table hides no second Authorization header that is not a string; and where `http_headers` has an
  Authorization header and there is a variable for it, that is the entry's one header and its value is the reference to
  the variable, and `headers` has none (or the placeholder itself). For the program then moves the placeholder of
  `http_headers` to the variable and leaves it at that: a static value there is replaced by the variable, and `headers`
  keeps the placeholder (`McpSave.OverrideAsShown`, `OverrideSwaps`, `OverrideKeepsPlaceholder`).
- Restoring a credential stops the program exactly when a variable has to be put back into a native override whose
  `env_http_headers` is present and not an object; it never does for a printed entry (`McpGateway.PreserveStops`,
  `PreserveAcceptsPrinted`, `McpSave.OverrideStops`).
- A printed definition parses back exactly when it is `Printable`. The parser looks for the `/sse` suffix in the
  local URL whatever the entry's type says, so an HTTP server routed to such a URL comes back as an SSE server
  (`McpDefinition.PrintParseRoundTrip`, `HttpAtSseUrlIsReadAsSse`).
- A saved server is reported back as one server exactly when its definition is understood or only one executor has it —
  for requests without native overrides and gateway servers, whose definitions survive printing (`Regular`): a disabled
  entry that two executors share is saved and reported as a conflict (`McpConvergence.SaveConverges`,
  `SharedDisabledIsConflict`).
- Re-adding stages that are in the order already changes nothing, for every input. The converse needs the enlarged
  selection to be consistent: the pipelines `[x, y]` and `[y, x]` form a cycle, fall back to first-seen order and
  change nothing (`PipelineBlock.Absorption`, `ContradictionMayChangeNothing`).
- The comment-preserving merge gives the new value exactly when no repeated key gets in the way
  (`CommentMerge.MergeComputesNewValue`, `RepeatedKeyKeepsStaleValue`; `UniqueKeysMerge` gives the usual case).
- Writing back the servers that were read changes nothing exactly when the path leads through objects to an object
  (`ConfigPath.SetWhatWasGot`, `MissingSectionIsCreated`).
- Patching the default profiles with the computed overrides restores the configuration exactly when it clears no
  default (`Profiles.DiffThenPatch`, `ClearedDefaultComesBack`).
- An adapter keeps the meaning of an HTTP entry with a URL exactly under `KeepsHttp`. A disabled entry is compared as it
  is, and changed by all but the passthrough, and by Copilot's where it has no tools. One that is rebuilt for Cursor,
  Gemini or OpenCode must have its headers in `headers`. Codex's adapter drops the type, so that a command takes over, and
  overwrites only the header tables it has something for: the tables the entry had before must not add, change or lose a
  header (`KeepsCodexTables`). OpenCode's keeps a command entry exactly under `OpencodeKeeps`, and Copilot's any entry that
  is understood or has tools (`Adapters.HttpEntriesKeepMeaning`, `TablesAreLost`, `VariablesAreLost`, `CommandTakesOver`,
  `OpencodeKeepsMeaning`, `ForwardedVariablesAreLost`, `CopilotKeepsMeaning`, `DisabledGetsTools`).
- Saving an accepted request a second time changes nothing exactly when every assigned server repeats: its entry means
  what is requested, so that it is kept, or its placeholder is restored as it was the first time. It always does where
  no placeholder is printed or given. A native override with a placeholder and a variable of its own is one that does
  not: the first save puts the saved credential beside the variable, the second moves the placeholder to it. This is for
  requests with distinct valid names other than `slack`, none of them removed as well (`McpPlanLaws.PlanningTwice`,
  `McpConvergence.AcceptedSavedTwice`, `PlaceholderOverrideSavedTwice`).

Two more hold for everything that reaches them, but not of the functions alone:

- Planning a request twice plans the same servers only when, besides, no stale legacy entry is left behind: a server that
  is no longer assigned and has both an entry of its own and a matching legacy entry takes two plans to go. Validation
  rejects every such request (`McpPlanLaws.StaleLegacyNeedsTwoSaves`, `McpConvergence.StaleLegacyIsRejected`,
  `AcceptedLeavesNoneStale`).
- Replacing a host's block leaves one block of it exactly when trimming leaves the line `Host ALIAS` alone, and every
  update leaves one blank line behind. An alias that ends in white space would never be found again; the aliases the
  bridge makes, `vk-` and a UUID, are never trimmed (`SshConfig.UpdateLeavesOneEntry`, `TrailingSpaceIsNotFound`,
  `HostAliasLeavesOneEntry`).

## Model

| member | source | states |
|---|---|---|
| PipelineOrdering.CanonicalStageOrder | crates/api-types/src/pipeline_block.rs:47-121 | the loops compute the specified order for every input, so the result does not depend on hash order |
| PipelineOrdering.IndexStages | crates/api-types/src/pipeline_block.rs:48-60 | every id maps to its first stage and to its first-seen index |
| PipelineOrdering.CountEdges | crates/api-types/src/pipeline_block.rs:62-78 | after counting, successors are the edges and each indegree is the number of distinct predecessors |
| PipelineOrdering.CountDown | crates/api-types/src/pipeline_block.rs:97-106 | each indegree stays the number of unprocessed predecessors, so no decrement underflows, and what reaches zero becomes ready |
| PipelineOrdering.KahnLoop | crates/api-types/src/pipeline_block.rs:79-109 | the loop takes the ready stages in least-first-seen order, and what remains at a cycle is exactly the specified rest |
| PipelineOrdering.SortByFirstSeen | crates/api-types/src/pipeline_block.rs:111-115 | the fallback lists exactly the remaining stages, by first-seen index |
| PipelineOrdering.Collect | crates/api-types/src/pipeline_block.rs:117-120 | ids become their first-occurrence stages |
| StageGraph.KahnTail | crates/api-types/src/pipeline_block.rs:79-115 | the fallback tail is exactly the vertices on or reachable from a cycle, in preference order |
| StageGraph.SortedRespectsEdges | crates/api-types/src/pipeline_block.rs:79-109 | no edge leads back into the sorted part, with cycles too |
| StageGraph.KahnIsLeast | crates/api-types/src/pipeline_block.rs:79-109 | the order is lexicographically least among all topological orders |
| StageGraph.KahnSorts | crates/api-types/src/pipeline_block.rs:79-115 | the order is topological if and only if there is no cycle, if and only if any order is |
| StageGraph.KahnAbsorbs | crates/api-types/src/pipeline_block.rs:79-115 | more edges change nothing as long as none leads backwards in the result, with cycles and without |
| PipelineBlock.OrderHoldsEachStageOnce | crates/api-types/src/pipeline_block.rs:47-121 | every distinct stage id appears exactly once, with its first-occurrence stage, cycles included |
| PipelineBlock.FallbackHoldsBlockedStages | crates/api-types/src/pipeline_block.rs:47-121 | the output is the sorted part followed by exactly the blocked stages in first-seen order |
| PipelineBlock.ValidOrderIsTopological | crates/api-types/src/pipeline_block.rs:47-78 | keeping every pipeline's order is the same as going against no edge |
| PipelineBlock.CanonicalOrderIsLeastValid | crates/api-types/src/pipeline_block.rs:47-121 | pipelines are consistent iff their edges have no cycle iff the output keeps every pipeline's order, and the output is then the unique least such order |
| PipelineBlock.Absorption | crates/api-types/src/pipeline_block.rs:47-121 | for every input, appending a pipeline whose ids are a subsequence of the output changes nothing, and only that where the result is consistent |
| PipelineBlock.ReselectingIsNoOp | crates/api-types/src/pipeline_block.rs:47-121 | for every input, selecting a pipeline again changes nothing |
| PipelineBlock.SinglePipeline | crates/api-types/src/pipeline_block.rs:47-121 | one pipeline without repeated ids is returned as it is |
| PipelineBlock.CanonicalOrderIsStable | crates/api-types/src/pipeline_block.rs:47-121 | for every input, feeding the output back as one pipeline, alone or appended, returns it unchanged |
| PipelineBlock.ContradictionMayChangeNothing | crates/api-types/src/pipeline_block.rs:111-115 | a contradicting pipeline can disappear in the fallback |
| PipelineCompose.ComposeLines | crates/api-types/src/pipeline_block.rs:127-172 | the loops push heading, instruction, executor line and numbered enabled stages in the specified order |
| PipelineCompose.ComposeBlock | crates/api-types/src/pipeline_block.rs:127-172 | the lines are joined between the delimiters, and nothing is emitted when there is nothing to emit |
| PipelineCompose.BlockHoldsLines | crates/api-types/src/pipeline_block.rs:171 | read line by line, the block is exactly its lines between the two delimiters |
| PipelineCompose.BlockRespectsPipelines | crates/api-types/src/pipeline_block.rs:127-172 | enabled stages are numbered from one without gaps, in an order that respects every selected pipeline |
| PipelineCompose.BlockHead | crates/api-types/src/pipeline_block.rs:127-172 | before the numbered lines stand the heading with the joined names, the instruction iff there is a stage, and the executor line iff there is one, each at its place |
| McpDefinition.RouteRoundTrip | crates/executors/src/mcp_config.rs:111-126 | mapping a URL to its local form and back is the identity iff the URL is routable |
| McpDefinition.InjectiveTableIsRoutable | crates/executors/src/mcp_config.rs:111-126 | an injective table with disjoint sides makes every public or unknown URL routable |
| McpDefinition.ExactTemplates | crates/executors/src/shared_mcp_config.rs:889-901 | a name is found in a text iff the text is exactly `${NAME}` with that name, and the name is valid |
| McpDefinition.ParserIsCanonical | crates/executors/src/shared_mcp_config.rs:770-869 | every entry the parser understands becomes a definition in canonical form, and no other does |
| McpNative.ParserUnderstands | crates/executors/src/shared_mcp_config.rs:770-869 | by the names of its members, which entries are read as a command, as an HTTP or an SSE server, and which are handed through |
| McpNative.SseUrls | crates/executors/src/shared_mcp_config.rs:848-852 | a URL is an SSE one iff it is some text, `/sse`, and any number of slashes |
| McpNative.CommandIsRead | crates/executors/src/shared_mcp_config.rs:790-840 | command, arguments, environment and forwarded variables of the definition, each in terms of the members of the entry, and no other member |
| McpNative.UrlIsRead | crates/executors/src/shared_mcp_config.rs:842-887 | public URL and every single header of the definition in terms of the members of the entry, and no other member |
| McpDefinition.CodexHeadersRejoin | crates/executors/src/shared_mcp_config.rs:871-887 | splitting headers into static and environment tables and normalising rejoins them exactly |
| McpDefinition.PrintHeadersRoundTrip | crates/executors/src/shared_mcp_config.rs:1171-1195 | every executor's printed headers normalise to the original ones and leave all other members alone |
| McpDefinition.StdioRoundTrip | crates/executors/src/shared_mcp_config.rs:1097-1141 | a printed command parses back iff it is printable |
| McpDefinition.RemoteRoundTrip | crates/executors/src/shared_mcp_config.rs:1142-1198 | a printed HTTP or SSE server parses back iff it is printable |
| McpDefinition.PrintParseRoundTrip | crates/executors/src/shared_mcp_config.rs:1081-1204 | for every compatible executor and canonical definition, parse after print is the identity iff the definition is printable |
| McpDefinition.HttpAtSseUrlIsReadAsSse | crates/executors/src/shared_mcp_config.rs:770-869 | an HTTP server behind a local URL ending in `/sse` comes back as SSE for every executor |
| McpNames.SuggestIdentifier | crates/executors/src/shared_mcp_config.rs:232-254 | the loop with its pending separator computes the specified suggestion |
| McpNames.SuggestionIsValid | crates/executors/src/shared_mcp_config.rs:232-254 | a suggestion is a valid lower-case identifier that does not end in an underscore |
| McpNames.SuggestionJoinsWords | crates/executors/src/shared_mcp_config.rs:232-254 | the suggestion is the words of the name in lower case, joined by one underscore, without the underscores at the end, or `mcp_server` where nothing is left |
| McpNames.NameHasPieces | crates/executors/src/shared_mcp_config.rs:232-254 | every name consists of such words and gaps |
| McpNames.SuggestionIsFixpoint | crates/executors/src/shared_mcp_config.rs:232-254 | suggesting leaves exactly the suggestions alone, and is idempotent |
| McpNames.IdentifierIsValid | crates/executors/src/shared_mcp_config.rs:223-254 | the identifier a native name is grouped under is always valid |
| McpPrinter.MaterializeDefinition | crates/executors/src/shared_mcp_config.rs:1081-1204 | the step-by-step construction writes the specified entry, with the same errors |
| McpNative.CommandIsPrinted | crates/executors/src/shared_mcp_config.rs:1095-1145 | for every executor, exactly these members with these values are printed for a command |
| McpNative.UrlIsPrinted | crates/executors/src/shared_mcp_config.rs:1147-1204 | for every executor by name, exactly these members are printed for a remote server: `httpUrl` or `url`, the type and flag it needs, and its header tables |
| McpPrinter.SplitHeaders | crates/executors/src/shared_mcp_config.rs:1174-1183 | the loop splits headers into the two tables whatever the iteration order |
| McpPrinter.RestoreInPlace | crates/executors/src/shared_mcp_config.rs:1376-1388 | the loop replaces exactly the placeholder values of Authorization headers |
| McpPrinter.PreserveGateway | crates/executors/src/shared_mcp_config.rs:1313-1389 | the early returns and in-place edits compute the specified restoration |
| McpGateway.RedactionIsFramed | crates/executors/src/shared_mcp_config.rs:723-753 | redaction changes nothing but Authorization values in the header members it covers, in definitions and in entries |
| McpRedaction.SourceShown | crates/executors/src/shared_mcp_config.rs:723-753 | a credential of an entry is shown, in its definition or as its source, iff the entry is exposed |
| McpRedaction.GroupShows | crates/executors/src/shared_mcp_config.rs:568-677 | the report of an identifier, whichever of its three forms it has, shows a credential iff one of its sources is exposed |
| McpRedaction.ResponseShowsExposed | crates/executors/src/shared_mcp_config.rs:511-688 | some definition, source or assignment of the whole response shows a credential iff a saved entry is exposed |
| McpRedaction.DisabledTableIsShown | crates/executors/src/shared_mcp_config.rs:770-785 | a disabled Codex entry with a gateway URL and its credential in `http_headers` is reported in clear |
| McpRedaction.DisabledHttpUrlIsShown | crates/executors/src/shared_mcp_config.rs:770-785 | a disabled Gemini entry with its gateway URL in `httpUrl` is reported in clear |
| McpGateway.PreserveStops | crates/executors/src/shared_mcp_config.rs:1337-1361 | the restoration stops the program iff a variable has to go into an `env_http_headers` that is present and not an object |
| McpGateway.PreserveAcceptsPrinted | crates/executors/src/shared_mcp_config.rs:1313-1361 | so it never stops at a printed entry |
| McpGateway.RestoreStatic | crates/executors/src/shared_mcp_config.rs:1376-1388 | redacting, splitting, restoring the value and rejoining Codex headers gives the original headers |
| McpGateway.RestoreTemplate | crates/executors/src/shared_mcp_config.rs:1337-1361 | redacting, splitting, moving the placeholder back to its variable and rejoining gives the original headers with the variable's template |
| McpGateway.PrintThenRestoreIsLossless | crates/executors/src/shared_mcp_config.rs:1240-1250 | printing the redacted definition and restoring its placeholder gives an entry with the original meaning iff Codex's header tables agree |
| McpRestore.PreserveShown | crates/executors/src/shared_mcp_config.rs:1313-1389 | the entry that was shown, put back, keeps its meaning iff `KeepsShown` holds, and never stops the program |
| McpRestore.RestoredTwice | crates/executors/src/shared_mcp_config.rs:1313-1389 | a placeholder restored again, from what the first restoration saved, gives the same entry iff `RestoresAgain` holds |
| McpRestore.OwnEntryCounts | crates/executors/src/shared_mcp_config.rs:1313-1335 | what is put back into a server that is saved under its name depends on its own entry only |
| McpRestore.SiblingCounts | crates/executors/src/shared_mcp_config.rs:1319-1389 | a server that is not saved gets, in both header tables, exactly its placeholders replaced by the credential saved for its URL |
| McpRestore.NobodyCounts | crates/executors/src/shared_mcp_config.rs:1319-1326 | without a saved server at the URL the entry is left as it is |
| McpGateway.TablesCanDisagree | crates/executors/src/shared_mcp_config.rs:871-887 | in an entry with both tables under one name they do not agree |
| McpSave.FindCapability | crates/server/src/routes/config.rs:645-664 | the nested loops find the credential of the first saved server at the URL that has one |
| McpSave.HydrateGatewayCapabilities | crates/server/src/routes/config.rs:623-689 | every placeholder of a request is replaced by the credential found for its URL, or the request is refused |
| McpSave.ServerIsSentBack | crates/server/src/routes/config.rs:623-689 | a server is refused iff it asks for a credential without a URL, with one that is no gateway, or with none saved for it; any other that asks gets, in that one header, the value of an Authorization header saved for its URL in the first configuration that has one |
| McpSave.ReadThenSaveIsLossless | crates/server/src/routes/config.rs:413-436 | the entry planned for a hydrated, otherwise unmodified gateway server means what it meant iff the program chooses the server's own credential |
| McpSave.AgreeingServerIsKept | crates/server/src/routes/config.rs:645-664 | where all saved servers at the URL share the credential, the entry itself is kept |
| McpSave.ChosenInEveryOrder | crates/server/src/routes/config.rs:645-664 | a credential is chosen in every hash order iff all that the first configuration with one holds for the URL is that credential |
| McpSave.LosslessInEveryOrder | crates/server/src/routes/config.rs:413-436 | saving an unmodified gateway server keeps its meaning in every hash order iff every saved server of the first configuration with a credential for its URL has its credential, or the placeholder, where its own variables agree |
| McpSave.SharedUrlSwaps | crates/server/src/routes/config.rs:645-664 | two servers at one URL with different credentials are an input where one gets the other's |
| McpSave.OverrideAsShown | crates/executors/src/shared_mcp_config.rs:1313-1389 | an override that holds the shown entry, whatever header tables it has, keeps its meaning iff `KeepsShown` holds of the saved entry |
| McpSave.OverrideSwaps | crates/executors/src/shared_mcp_config.rs:1337-1361 | an entry with a static header and a variable is an input where it does not: the variable takes over |
| McpSave.OverrideKeepsPlaceholder | crates/executors/src/shared_mcp_config.rs:1355-1361 | an entry with all three tables is an input where the placeholder stays in `headers` |
| McpSave.OverrideStops | crates/executors/src/shared_mcp_config.rs:1355-1361 | an override with a placeholder and a null `env_http_headers` is an input where the program stops |
| McpResend.ReportedServer | crates/executors/src/shared_mcp_config.rs:500-566 | a reported server stands for exactly the saved entries of one native name |
| McpResend.UnmodifiedIsKept | crates/server/src/routes/config.rs:413-436 | a reported server, sent back as it was read, is completed and then kept by every executor that holds it, or given its entry under its identifier, and by no other |
| McpResend.ResponseSentBack | crates/server/src/routes/config.rs:413-436 | the whole read response, sent back, is completed, accepted and planned for every executor, and changes no entry but for the names that are migrated; without those nothing is planned |
| McpPlan.LegacyNameFor | crates/executors/src/shared_mcp_config.rs:1287-1311 | the scan finds the one matching legacy name, none, or an ambiguity, whatever the hash order |
| McpPlan.PlanForExecutor | crates/executors/src/shared_mcp_config.rs:1206-1285 | the loops with their early continues compute the specified plan and list of affected servers |
| McpPlan.RemoveRequested | crates/executors/src/shared_mcp_config.rs:1262-1284 | the removal loop computes the specified removals or reports the ambiguity |
| McpPlanLaws.ApplyServersPlans | crates/executors/src/shared_mcp_config.rs:1213-1261 | the loop succeeds iff each server can be planned on its own, and then every key holds what its own server asks for and other keys are unchanged |
| McpPlanLaws.PlanIsPointwise | crates/executors/src/shared_mcp_config.rs:1206-1285 | the whole plan is determined key by key: requested, renamed, removed, or unchanged |
| McpPlanLaws.ServerIsRefused | crates/executors/src/shared_mcp_config.rs:1206-1311 | a requested server cannot be planned iff it is ambiguous, or has to be printed for an executor that cannot run it, override or not, or has no object, or its credential cannot be put back |
| McpPlanLaws.PlanIsRefused | crates/executors/src/shared_mcp_config.rs:1206-1285 | a plan without removals is refused iff one of its servers is |
| McpPlanLaws.SlackTemplateIsPrinted | crates/executors/src/shared_mcp_config.rs:1226-1244 | the bundled `slack` template is printed anew even where its migration is what is requested |
| McpPlanLaws.PlannedIsUnique | crates/executors/src/shared_mcp_config.rs:1213-1261 | two plans for the same set of servers are equal |
| McpPlanLaws.PlanIgnoresServerOrder | crates/executors/src/shared_mcp_config.rs:1206-1285 | permuting the requested servers changes neither success, nor the planned map, nor which servers are reported |
| McpPlanLaws.NothingAffectedNothingChanged | crates/executors/src/shared_mcp_config.rs:1206-1285 | an empty list of affected servers means no change |
| McpPlanLaws.SettledEntry | crates/executors/src/shared_mcp_config.rs:1217-1253 | after the plan the entry of an assigned server means exactly the requested definition |
| McpPlanLaws.LegacyAfter | crates/executors/src/shared_mcp_config.rs:1287-1311 | exactly the legacy entries that are neither renamed nor removed are left |
| McpPlanLaws.PlanningTwice | crates/executors/src/shared_mcp_config.rs:1206-1285 | planning again, overrides, placeholders and unprintable definitions included, plans the same servers iff no stale legacy entry is left behind and every assigned server repeats; it reports nothing where the request is settled |
| McpPlanLaws.StaleLegacyNeedsTwoSaves | crates/executors/src/shared_mcp_config.rs:1254-1260 | such an entry survives the first plan and not the second |
| McpReconcile.CollectSources | crates/executors/src/shared_mcp_config.rs:531-564 | the nested loops group every saved server under its identifier, for some order of each hash map |
| McpReconcile.ReconcileGroup | crates/executors/src/shared_mcp_config.rs:568-677 | the three branches compute the specified server or conflict, of which `ConflictHolds` and `ServerHolds` say what it is |
| McpReconcile.ReconcileSnapshots | crates/executors/src/shared_mcp_config.rs:511-688 | the loops compute the specified response for the order the hash maps had |
| McpVariants.ConflictHolds | crates/executors/src/shared_mcp_config.rs:568-677 | the variants of a conflict divide the saved entries of its identifier: entries of one name share a variant iff they mean the same, entries of several names stand alone; each variant has the redacted definition of every source, one assignment for each, and the conflict its display name |
| McpVariants.ServerHolds | crates/executors/src/shared_mcp_config.rs:610-642 | a server holds all saved entries of its identifier, which have one name and mean the same, with their redacted definition, one assignment for each, and its display name |
| McpReconcileLaws.ReconciliationIsPartition | crates/executors/src/shared_mcp_config.rs:531-678 | every saved (executor, native name) is reported exactly as often as it was saved, across servers and conflict variants |
| McpReconcileLaws.SavedOnce | crates/executors/src/shared_mcp_config.rs:531-564 | with distinct executors that is exactly once |
| McpReconcileLaws.ServerOrConflict | crates/executors/src/shared_mcp_config.rs:568-678 | an identifier is a server iff its sources have one native name and one definition class, else a conflict, and is reported iff it has sources |
| McpReconcileLaws.ReportsAreDistinct | crates/executors/src/shared_mcp_config.rs:566-678 | no identifier is reported twice, as a server, as a conflict or as both |
| McpReconcileLaws.ReportsAscend | crates/executors/src/shared_mcp_config.rs:531-678 | servers and conflicts are reported in ascending order of their identifiers |
| McpReconcileLaws.GroupIsNamed | crates/executors/src/shared_mcp_config.rs:531-564 | a group with one native name lists that name's entries in snapshot order, whatever the hash order |
| McpReconcileLaws.ServersIgnoreHashOrder | crates/executors/src/shared_mcp_config.rs:511-688 | the list of servers, with everything reported about them, does not depend on hash order |
| McpConvergence.Validate | crates/executors/src/shared_mcp_config.rs:1395-1514 | the loops accept exactly the requests whose servers are each acceptable and named differently |
| McpConvergence.RunnersAreCompatible | crates/executors/src/shared_mcp_config.rs:1036-1062 | for every definition, the set of executors that can run it |
| McpConvergence.NewServerIsAccepted | crates/executors/src/shared_mcp_config.rs:1395-1514 | a server that is new is accepted iff its identifier is valid and free, and it is assigned to executors that are known and can run it |
| McpConvergence.LenientServersStay | crates/executors/src/shared_mcp_config.rs:1418-1471 | the servers let through besides are exactly those that a save leaves alone or only renames |
| McpConvergence.LegacyOfAccepted | crates/executors/src/shared_mcp_config.rs:1418-1449 | in an accepted request every legacy name of a server is one the plan renames |
| McpConvergence.AcceptedLeavesNoneStale | crates/executors/src/shared_mcp_config.rs:1399-1449 | an accepted request leaves no stale legacy entry behind, for any executor |
| McpConvergence.AcceptedSavedTwice | crates/executors/src/shared_mcp_config.rs:1206-1285 | an accepted request with valid names that is saved a second time changes nothing iff every assigned server repeats |
| McpConvergence.PlaceholderOverrideSavedTwice | crates/executors/src/shared_mcp_config.rs:1313-1389 | an override with a placeholder and its own variable is accepted and changes the configuration twice |
| McpConvergence.StaleLegacyIsRejected | crates/executors/src/shared_mcp_config.rs:1399-1416 | the request that would leave a stale entry is rejected, whatever it assigns |
| McpConvergence.PlanSucceeds | crates/executors/src/shared_mcp_config.rs:1206-1285 | an accepted request can be planned for every executor |
| McpConvergence.NoLegacyLeft | crates/executors/src/shared_mcp_config.rs:1206-1311 | after the save no legacy name of a requested server is left anywhere |
| McpConvergence.SaveConverges | crates/executors/src/shared_mcp_config.rs:511-688 | after validate, plan and reconcile each requested server is reported with the requested definition and exactly the requested assignments, each with the executor's saved entry, as one server iff it is understood or has one executor |
| McpConvergence.SharedDisabledIsConflict | crates/executors/src/shared_mcp_config.rs:568-577 | a disabled entry that two executors share is accepted, kept and reported as a conflict |
| McpConvergence.RemovedIsGone | crates/executors/src/shared_mcp_config.rs:1262-1284 | a removed server is reported no more, under its own or a legacy name |
| Fingerprint.SortingKeepsMeaning | crates/executors/src/shared_mcp_config.rs:1006-1022 | sorting keeps the value at every depth |
| Fingerprint.SortedIsSorted | crates/executors/src/shared_mcp_config.rs:1006-1022 | in every object of the sorted form the keys ascend |
| Fingerprint.SortedIsCanonical | crates/executors/src/shared_mcp_config.rs:1006-1022 | sorted forms are equal iff the trees are equal up to key order at every depth, and sorting is idempotent |
| Fingerprint.FingerprintDecidesEquality | crates/executors/src/shared_mcp_config.rs:994-1023 | two definitions share a fingerprint iff both are understood and transport and value agree |
| ConfigPath.SetServersInConfig | crates/executors/src/mcp_config.rs:167-198 | the walk down the tree writes the specified tree, never meets a missing object, and rejects only the empty path |
| ConfigPath.GetAfterSet | crates/executors/src/mcp_config.rs:148-198 | reading after writing gives what was written |
| ConfigPath.SetAfterSet | crates/executors/src/mcp_config.rs:167-198 | of two writes only the last is kept |
| ConfigPath.SetWhatWasGot | crates/executors/src/mcp_config.rs:148-198 | writing back what was read changes nothing iff the path leads through objects to an object |
| ConfigPath.MissingSectionIsCreated | crates/executors/src/mcp_config.rs:167-198 | writing back what was read of a missing section creates it |
| ConfigPath.SetLeavesTheRest | crates/executors/src/mcp_config.rs:167-198 | every path that diverges from the written one reads as before |
| CommentMerge.MergeObject | crates/executors/src/mcp_config.rs:664-692 | the in-order edits compute the specified merge |
| CommentMerge.RemoveUnwanted | crates/executors/src/mcp_config.rs:664-674 | exactly the first property of each unwanted name is removed, per visited property |
| CommentMerge.FreshIsPlain | crates/executors/src/mcp_config.rs:694-719 | the input built for a new value has that value |
| CommentMerge.MergeComputesNewValue | crates/executors/src/mcp_config.rs:649-692 | the merged document has the new configuration's value up to key order iff no repeated key gets in the way |
| CommentOrder.MergedOrder | crates/executors/src/mcp_config.rs:664-692 | the merged properties are the document's wanted ones in their order, followed by the new ones in the order of the new configuration |
| CommentMerge.UniqueKeysMerge | crates/executors/src/mcp_config.rs:664-692 | a document with unique keys always merges into the new value |
| CommentMerge.RepeatedKeyKeepsStaleValue | crates/executors/src/mcp_config.rs:676-691 | the last copy of a repeated key keeps its stale value |
| CommentMerge.KeptPropertiesKeepComments | crates/executors/src/mcp_config.rs:664-692 | every property kept on a path of objects keeps its comments, at every depth |
| Adapters.Adapt | crates/executors/src/mcp_config.rs:960-974 | the loops adapt every entry of the catalogue but its metadata, and keep exactly what the adapter keeps |
| Adapters.CatalogueIsAdapted | crates/executors/src/mcp_config.rs:746-974 | name by name, which entries of the catalogue are served by an adapter, and what is left of its `meta` block |
| Adapters.EntryIsAdapted | crates/executors/src/mcp_config.rs:776-949 | for every adapter, exactly these members with these values make up the adapted entry |
| Adapters.CommandEntriesKeepMeaning | crates/executors/src/mcp_config.rs:776-949 | every adapter keeps the meaning of a command entry, OpenCode's iff its condition holds |
| Adapters.HttpEntriesKeepMeaning | crates/executors/src/mcp_config.rs:776-949 | every adapter keeps the meaning of an HTTP entry with a URL, up to the Accept header Gemini and OpenCode add, iff its condition on the members of the entry holds |
| Adapters.CodexTablesKept | crates/executors/src/mcp_config.rs:816-852 | what is read of an entry's headers after Codex's adapter is what was read before iff the tables it had beside `headers` add, change and lose nothing |
| Adapters.VariablesAreLost | crates/executors/src/mcp_config.rs:816-852 | an entry whose headers fill both tables of Codex loses a variable it had beside them |
| Adapters.TablesAreLost | crates/executors/src/mcp_config.rs:780-935 | an entry with `http_headers` only loses them to Cursor, Gemini and OpenCode |
| Adapters.CatalogueEntriesKeepMeaning | crates/executors/src/mcp_config.rs:776-949 | an enabled HTTP entry without command and native header tables meets the condition of every adapter |
| Adapters.CommandTakesOver | crates/executors/src/mcp_config.rs:816-852 | an HTTP entry with a command is a command to Codex |
| Adapters.CodexCommandKeepsMeaning | crates/executors/src/mcp_config.rs:816-852 | a command entry is kept by the Codex adapter with its meaning, even with a URL and headers |
| Adapters.OpencodeKeepsMeaning | crates/executors/src/mcp_config.rs:867-935 | the OpenCode adapter keeps a command's meaning iff its arguments, environment and variables survive the local form |
| Adapters.ForwardedVariablesAreLost | crates/executors/src/mcp_config.rs:867-935 | variables forwarded from the host are lost to OpenCode |
| Adapters.CopilotKeepsMeaning | crates/executors/src/mcp_config.rs:937-949 | adding tools keeps the meaning iff the entry is understood or has tools |
| Adapters.DisabledGetsTools | crates/executors/src/mcp_config.rs:937-949 | a disabled entry without tools is changed |
| Profiles.CanonicaliseProfile | crates/executors/src/profile.rs:255-271 | replacing keys in any order leaves only canonical keys, each with a value one of its old keys had |
| Profiles.CanonicalisationIsUnique | crates/executors/src/profile.rs:255-271 | without a clash the order of replacement does not matter |
| Profiles.CanonicalIsFixpoint | crates/executors/src/profile.rs:255-271 | canonical keys are left alone |
| Profiles.MergeWithDefaults | crates/executors/src/profile.rs:344-371 | the in-place update computes the specified patch |
| Profiles.FindDeletion | crates/executors/src/profile.rs:374-399 | an error is reported iff a built-in executor or configuration is missing, and names one that is |
| Profiles.ComputeOverrides | crates/executors/src/profile.rs:374-457 | the nested loops compute the specified diff, or the error |
| Profiles.StoredExecutors | crates/executors/src/profile.rs:400-457 | an executor is stored iff it has no built-in profile, or its own differs from it in a way that can be stored |
| Profiles.DiffThenPatch | crates/executors/src/profile.rs:344-457 | patching the defaults with the diff restores the configuration iff it clears no default |
| Profiles.ClearedDefaultComesBack | crates/executors/src/profile.rs:344-371 | a cleared default comes back |
| Profiles.OverridesAreLeast | crates/executors/src/profile.rs:374-457 | any overrides that patch to the configuration contain every configuration of the computed ones |
| Profiles.ValidateMerged | crates/executors/src/profile.rs:460-486 | the nested loops accept exactly the profiles with their own default and no reserved names |
| Profiles.SavedIsValid | crates/executors/src/profile.rs:319-341 | what is saved loads to profiles with their own default and no reserved name, and lacks nothing that is built in |
| Profiles.SaveOverrides | crates/executors/src/profile.rs:319-341 | a save canonicalises, diffs and validates, and writes the specified overrides or refuses |
| Profiles.LoadProfiles | crates/executors/src/profile.rs:285-316 | a load patches the canonicalised defaults, or falls back to them where there is no readable file |
| Profiles.SaveThenLoad | crates/executors/src/profile.rs:285-341 | what a save writes loads back to the canonicalised configuration iff that clears no default, and then only an uncovered or invalid configuration is refused |
| GitStatus.NextEntry | crates/git/src/cli.rs:351-408 | one round of the loop consumes exactly one entry or one skipped part |
| GitStatus.ParseStatus | crates/git/src/cli.rs:351-408 | the loop with its iterator and counters computes the specified status |
| GitStatus.SplitEntry | crates/git/src/cli.rs:351-365 | the parts of a printed entry are its columns and path, and its original path |
| GitStatus.ParseUndoesPrint | crates/git/src/cli.rs:351-408 | parsing printed entries gives exactly those entries |
| GitStatus.EntriesAreCounted | crates/git/src/cli.rs:381-406 | for any output the two counters are the number of entries with two question marks, and of those with neither two question marks nor two blanks |
| GitStatus.ParsedEntries | crates/git/src/cli.rs:351-406 | for any output each entry stands for a part of at least four bytes, and has an original path only with an R or C in its columns |
| GitStatus.StatusRoundTrip | crates/git/src/cli.rs:351-408 | for what git prints the entries come back, with the two counters counting them |
| SshConfig.ReplaceHostBlock | crates/desktop-bridge/src/ssh_config.rs:173-200 | the loop with its skip flag computes the surviving lines followed by the new block |
| SshConfig.LineKinds | crates/desktop-bridge/src/ssh_config.rs:173-200 | a line is the host's marker iff it is that text with white space around it, and belongs to what is before it iff it is blank or starts with a space or a tab |
| SshConfig.ScanIsSegmentFilter | crates/desktop-bridge/src/ssh_config.rs:173-200 | the scan is a filter on header-led segments that keeps all others verbatim and in order |
| SshConfig.LinesOfReplaced | crates/desktop-bridge/src/ssh_config.rs:173-200 | the lines of the result are the survivors, none of them the host's marker, and the new block |
| SshConfig.MarkersAreTheNewOnes | crates/desktop-bridge/src/ssh_config.rs:173-200 | the result has exactly as many marker lines of the host as the new block |
| SshConfig.ReplacingTwiceAddsBlankLines | crates/desktop-bridge/src/ssh_config.rs:173-200 | replacing again keeps every survivor and adds only the blank lines before the marker |
| SshConfig.UpdateLeavesOneEntry | crates/desktop-bridge/src/ssh_config.rs:66-87 | after an update exactly one marker line of the host is left and every further update adds one blank line, iff trimming leaves the marker alone; otherwise none is found and the block is appended again |
| SshConfig.TrailingSpaceIsNotFound | crates/desktop-bridge/src/ssh_config.rs:173-200 | with an alias that ends in white space no marker is found and every update appends a block |
| SshConfig.HostAliasLeavesOneEntry | crates/desktop-bridge/src/ssh_config.rs:24-34 | with `vk-` and a UUID exactly one marker is left and every further update adds one blank line |
| SftpHandles.HandleNamesDiffer | crates/embedded-ssh/src/sftp.rs:64-68 | printing handle numbers in decimal is injective |
| SftpHandles.SftpHandler.AllocHandle | crates/embedded-ssh/src/sftp.rs:64-68 | the counter's text is returned and the counter goes up by one, modulo 2^64 |
| SftpHandles.SftpHandler.OpenFile | crates/embedded-ssh/src/sftp.rs:128-163 | the table and reply are the specified step's |
| SftpHandles.SftpHandler.OpenDirectory | crates/embedded-ssh/src/sftp.rs:260-280 | the table and reply are the specified step's |
| SftpHandles.SftpHandler.ReadFile | crates/embedded-ssh/src/sftp.rs:165-194 | the reply is the specified one — data, end of file or failure — and nothing changes |
| SftpHandles.SftpHandler.ReadDirectory | crates/embedded-ssh/src/sftp.rs:282-320 | the table and reply are the specified step's |
| SftpHandles.SftpHandler.CloseHandle | crates/embedded-ssh/src/sftp.rs:217-229 | the table and reply are the specified step's |
| SftpHandles.HandlesAreDistinct | crates/embedded-ssh/src/sftp.rs:64-68 | over any run of fewer than 2^64 allocations no handle is returned twice |
| SftpHandles.TablesAlwaysMatch | crates/embedded-ssh/src/sftp.rs:128-320 | at every point of a run the tables hold exactly the handles returned and not closed, and which directories were listed |
| SftpHandles.HandlesKeepPaths | crates/embedded-ssh/src/sftp.rs:128-280 | at every point of a run a handle stands for the path it was opened with |
| SftpHandles.TablesAreDisjoint | crates/embedded-ssh/src/sftp.rs:128-280 | no handle is ever in both tables |
| SftpHandles.CloseSucceedsOnce | crates/embedded-ssh/src/sftp.rs:217-229 | a close succeeds iff the handle was returned and not closed, so once per handle |
| SftpHandles.ReadDirListsOnce | crates/embedded-ssh/src/sftp.rs:282-320 | a directory's names are returned iff its handle is open and not yet listed, so at most once per handle |
| SftpHandles.ReadNeedsOpenFile | crates/embedded-ssh/src/sftp.rs:165-194 | over any run a read is answered with data or end of file exactly while its file is open |

## Left out

- Files, processes, the network, clocks and async scheduling: only the step between reading and writing is modelled; whether an SFTP call on the file system succeeds is a parameter.
- Parsing and printing JSON, JSONC and TOML text, URLs and shell words; numbers are kept as the text they were written with.
- Serialising the sorted tree to a string: the fingerprint is the transport and the sorted tree, so the serialisation is taken as injective. Reconciliation compares values directly, which `Fingerprint.FingerprintDecidesEquality` shows to be the same; the order of variants within a conflict is the order of those strings and is therefore a parameter.
- The bundled Slack template's migration: an abstract function of the entry, and `slack` is not a name the save laws speak of.
- Writing the planned configurations: rollback of a partly failed save, and the status of a gateway connection.
- Environment overrides of preconfigured servers, display labels, Codex's scoped configuration file.
- McpReconcile.ReconcileGroup: does not model the fields that are read off the definition: source kind, compatibility, authorization mode, the message of a conflict.
- McpReconcile.ReconcileSnapshots: does not model the profiles, read errors, configuration paths and preconfigured servers that are passed through.
- McpRedaction.ResponseShowsExposed: speaks of sources the template migration of `slack` leaves alone.
- McpPlanLaws.PlanningTwice: speaks of requests with distinct valid names, other than `slack`, that are not removed as well; an invalid name that is saved unchanged can be renamed by another server of the request.
- McpResend.ResponseSentBack: where the credentials saved for a URL differ, `McpSave.LosslessInEveryOrder` says what is saved; a server with two Authorization headers, one that is no gateway and has the placeholder saved for its credential, and an empty command are not in its domain.
- `canonical_variant_key`, the case conversion of configuration names: an abstract idempotent function.
- Which agent a configuration is for is a parameter of the validation of profiles.
- Update through shared references: the syntax tree's handles and `&mut Value` are modelled on values, with the walk kept as a trail; aliasing does not arise in this code.
- The member order of JSON objects in the MCP modules, where objects are unordered and "the first match" is an arbitrary one. `Fingerprint` and `CommentMerge` do model member order.
- Property names of a JSONC document that cannot be decoded.
- The wording of errors and of the line that pins an executor, which is a parameter of the block.
- A debug build stops when the SFTP handle counter passes 2^64; the model wraps around as a release build does.
- The stop for a native override whose environment headers are not an object is an error result.
- `list_worktrees`, `parse_name_status` and `effective_urls`: further scanners of the same kind.
