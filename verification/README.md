# Verified models of the CK3 index

The repository indexes a game installation together with the mods layered on top of it and answers questions about the
result. This project models the parts of it where an answer depends on an algorithm or a protocol, and proves what those
parts promise:

- **Event chains.** `EventCalls` has the typed call references, the queries that select them and the steps a walk may take;
  `EventTopology` is the capped walk over them, `Cycles` the component search behind the cycle list (over the graphs of
  `Digraph`), and `TopologyReport` the degrees, roots, leaves and paths of a report. Unless it says it was truncated, which
  it says only when something was cut off, the walk is exact, the nodes within the depth at their shortest distances and
  every call at them, under an exact condition on the table. A name that holds a colon makes the query of its node untyped, so the walk no longer sees the node's own
  calls: such nodes must not be needed. Edge keys are joined by bars, so a bar in a name can give two calls one key: keys
  must tell the calls in view apart. Neither is asked of calls out of reach, of withheld ones, or of the targets of
  unresolved ones.
- **The GIS side program.** `GisMemo` is the memo of verified executables as a state machine over its lock sections, waits
  and inspections, with any number of callers and keys and an arbitrary interleaving; `GisAnswers` has what holds over its
  runs. Every answer but that of a caller itself cancelled is what one shared inspection found, available unless it found
  nothing or its own caller was cancelled. That inspection was running during the caller's own call except for a caller that
  joins an entry whose inspection has already returned; such a run is given.
- **Scans and search tables.** `SearchIndex` has the semantic full-text table, its full rebuild and its batched refresh;
  `ScanFiles` the table edit of a refresh of named files. `Overrides` says which files of the source layers are hidden, and
  `FullScan` is the full scan over an index that may already hold most files, with the workers' results in any order: what it
  leaves is what a clean scan would leave, under an exact condition. `TrigramIndex` is the substring index kept by triggers,
  bulk loads and repairs on opening the schema.
- **Publication.** `Publication` has immutable database generations behind one renamed pointer, with a crash possible
  between any two file operations and lock-free removals by database managers at any time; `Baselines` the recorded
  diagnostic baselines, which outlive every publication.
- **Folders.** `Levenshtein` proves the two-row loop equal to the edit distance and the distance a metric, the least number
  of edits; `FolderSchema` the recorded directory shape and the nearest sibling.
- **Coats of arms.** `CoatOfArms` has the bounded walk up the parents, which cuts cycles, and the fold back down; `Dds` the
  decoding of block-compressed and masked textures, and `DdsFiles` such textures written byte by byte and read back, after
  the block layouts that section 18 of the Khronos Data Format Specification 1.3 describes.
- **Diagnostics and engine logs.** `Diagnostics` groups findings and orders them by two stable sorts; `EngineBundle` reads
  the engine logs with a check before and after and keeps the results in a bounded first-in first-out cache.

`Order`, `Text` and `Wrappers` hold what several models share: byte-wise string order, stable sorting, the few string
functions of the Go library, and option types; `TextLaws` says what those string functions mean.

Where the source changes variables, maps, tables or arrays step by step, the model is a method or a class proved against a
function or a predicate, and the promises are lemmas about those. Protocols with several parties are state machines, and
their properties hold for all runs. Hashes, clocks, file ages, inspections and the order in which a map hands over its keys
are arbitrary.

## Where the code and its description differ

- A node name that contains a colon: `EventCalls.OwnEdgesSeen` says exactly when an id query finds a node's own edges, and
  `EventTopology.BuildWalk` with `EventCalls.OneWayHarmlessIff` when the walk suffers from it.
- Edge keys: `EventCalls.KeysCollide` gives two different calls with one key, `EventCalls.CollisionTable` and
  `EventTopology.CollisionLosesNode` a table over which the walk then loses a node, and `EventTopology.BuildWalk` the
  exact condition.
- The comment that concurrent callers share an exact revalidation of the published bytes holds unless a caller arrives
  between the end of the inspection and its completion (`GisAnswers.LateArrival`, `GisAnswers.InspectionOverlapsCall`).
- Two slashes in a row between the ends of a relative path file a stray child: agreement of the folder shape then holds
  exactly when that child happens to be a directory as well (`FolderSchema.ConsistentIff`), which it is not for the first
  path recorded (`FolderSchema.FirstRecordConsistentIff`); a verdict may then name a directory that does not exist
  (`FolderSchema.StrayVerdict`). Slashes at the ends of a path do no harm. Scanned paths are cleaned
  (`internal/indexer/scan.go:410-414`, `internal/indexer/patch.go:141`), so on disk only a name that itself holds
  backslashes, where those are no separators, gives such a path.
- A channel mask whose shifted value exceeds 0x01010101 wraps around in 32 bits (`Dds.FullScaleIff`).
- A bundle of engine logs need not be a snapshot of one instant when optional inputs are removed and recreated while it is
  read (`EngineBundle.AlternatingInputs`). It is a snapshot of some instant between the two looks exactly when at one of them
  none of the inputs it leaves out existed (`EngineBundle.SnapshotWithinIff`), and of a given instant between them exactly
  when no input it leaves out was removed after that instant (`EngineBundle.SnapshotIff`).
- A full scan skips a file by its path on disk, source, kind and hash, so a file whose path within its source has changed,
  because the source now starts at another directory, keeps its old relative path (`FullScan.MovedRoot`), and a resource
  that changed under the same size and time keeps its old hash. The scan equals a clean scan exactly when it skips no such
  file (`FullScan.ScanIsCleanScanIff`).

## Model

| member | source | states |
|---|---|---|
| Cycles.TopologyCycles | internal/indexer/event_topology.go:370-429 | For every adjacency map the result lists exactly the strongly connected components that contain a directed cycle, each once and sorted, and every node on a cycle; the list is ordered by the joined names; the search ends |
| Cycles.CycleListUnique | internal/indexer/event_topology.go:417-428 | Two lists with that property have the same components, so map iteration order cannot matter |
| Cycles.CycleFinder.Visit | internal/indexer/event_topology.go:378-416 | A visit of an unseen node keeps the search invariant; afterwards everything it stacked is either filed under its whole component or stays stacked above it with a low number that is the number of a stacked node it reaches |
| Cycles.CycleFinder.EnterNode | internal/indexer/event_topology.go:379-383 | Numbering and stacking a node that every active call reaches keeps the invariant and makes the node the innermost active call |
| Cycles.CycleFinder.VisitTargets | internal/indexer/event_topology.go:384-398 | After the loop every target is numbered and accounted for in the low number of the node |
| Cycles.CycleFinder.VisitTarget | internal/indexer/event_topology.go:390-397 | One target, new, stacked or finished, is accounted for and the low number never grows |
| Cycles.CycleFinder.PopTo | internal/indexer/event_topology.go:402-411 | Popping stops at the node and returns exactly what lay from it upwards, without repetition; the stack flags stay right |
| Cycles.CycleFinder.CloseComponent | internal/indexer/event_topology.go:399-415 | A node whose low number is its own number pops a component, files it and reports it if it holds a cycle |
| Cycles.SettledComponent | internal/indexer/event_topology.go:399-411 | The nodes popped together are the whole strongly connected component of each of them |
| Cycles.CyclicOnCycle | internal/indexer/event_topology.go:412-415 | The reporting rule, more than one node or an edge to itself, holds exactly for the components whose nodes lie on a directed cycle |
| EventTopology.BuildWalk | internal/indexer/event_topology.go:143-226 | Every walk obeys the limits, meets every node but the center over a kept edge from a node one step nearer, and draws every edge from the query of a node nearer than the depth. It says it was truncated only if the edge limit was reached, a query at a node met was cut or the node limit refused a step, always for the first two and, where no call is misread, for the third. Where nothing was truncated, no call is misread and none shares its key with a withheld one, the walk is exact, node by node with shortest distances and call by call, if and only if keys tell apart the calls in view and untyped nodes do no harm. Read off the columns, every kept row has a named caller, no withheld source and, unless on-actions are asked for, two events as ends, so every node but the center is an event; and in a clear table an untruncated walk keeps every such row at a plainly named node met nearer than the depth and meets its other end |
| EventTopology.RowsAreAllowed | internal/indexer/event_topology.go:180-201 | Every kept row is one that the filters of the loop let through, told by its columns, and without on-actions every node but the center is an event |
| EventTopology.RowIsTaken | internal/indexer/event_topology.go:180-224 | A row that a chain may show, at an explored node, is kept with all its columns and its other end is met one step further at most |
| EventTopology.Expand | internal/indexer/event_topology.go:164-225 | Looking at one node keeps all that, adds only nodes one step further and raises the flag at a cut query or the edge limit and only for something cut off; in a clear table, unless truncated, every call at a typed node is then kept and every step from it leads to a node met |
| EventTopology.TakeHit | internal/indexer/event_topology.go:180-224 | One reference: dropped, skipped, redacted or kept, and perhaps followed; its key is seen afterwards and, unless truncated, both ends a step may lead to have been met for every kept edge; the flag is raised only for something cut off |
| EventTopology.GoOn | internal/indexer/event_topology.go:207-224 | The other end is met unless the edge is unresolved towards its target or the node limit is reached, which sets the truncation flag |
| EventTopology.ExploredExact | internal/indexer/event_topology.go:153-226 | If every typed node nearer than the depth has been explored, the walk is exact for what typed nodes lead to |
| EventTopology.WithinMet | internal/indexer/event_topology.go:153-226 | Every node within k steps taken from typed nodes has been met at distance at most k |
| EventTopology.MetTyped | internal/indexer/event_topology.go:220-223 | In a quiet table every node met is reached in as many steps from typed nodes as its distance says |
| EventTopology.HarmlessExact | internal/indexer/event_topology.go:153-226 | A walk exact for typed nodes is exact outright where untyped nodes do no harm |
| EventTopology.ExactHarmless | internal/indexer/event_topology.go:153-226 | And only there |
| EventTopology.ExactKeysTell | internal/indexer/event_topology.go:189-193 | Any walk that is exact shows that no key stands for two calls in view, whatever the direction |
| EventTopology.UntypedCenterNeverExact | internal/indexer/event_topology.go:173-226 | A walk one way and one step deep from a center with a colon in its name, or without a name, is never exact if the center has a call that way, whatever the table |
| EventCalls.OwnEdgesSeen | internal/indexer/query.go:632-638 | An id query finds an edge that starts at its node if and only if the name is non-empty and without a colon |
| EventCalls.MatchesEnd | internal/indexer/query.go:411-479 | For plain names the incoming and outgoing rows of an id query are exactly the references that end and start at the node |
| EventCalls.TypedSees | internal/indexer/query.go:411-479 | The query of a typed node, as far as the direction asks it, selects exactly the eligible calls at the node |
| EventCalls.StepIsRow | internal/indexer/event_topology.go:180-223 | A step leads from a to b exactly if some row has the two ends, is resolved as far as its target is followed, and passes the filters, told by its columns |
| EventCalls.CutIff | internal/indexer/query.go:411-479 | A query is cut exactly if more than 500 rows match on one side, and gives the first 500 |
| EventCalls.HitsAreSeen | internal/indexer/query.go:411-479 | The references a walk looks at are selected by the query, and all of them unless the query was cut |
| EventCalls.PlainEndsSuffice | internal/indexer/event_topology.go:203-224 | If every end that a step may lead to has a plain name, a plainly named center makes the table quiet and harmless; hidden calls and the targets of unresolved ones do not matter |
| EventCalls.UnnestedIsQuiet | internal/indexer/query.go:411-479 | Whatever else names hold, no call is misread unless a bare name is itself the id of an untyped node |
| EventCalls.OneWayHarmlessIff | internal/indexer/event_topology.go:203-224 | For callers-only and callees-only walks untyped nodes do no harm exactly when every node nearer than the depth with a call that way is typed |
| EventCalls.HarmlessWithin | internal/indexer/event_topology.go:203-224 | Where untyped nodes do no harm, steps from typed nodes lead everywhere, and as fast |
| EventCalls.EndsFromKey | internal/indexer/event_topology.go:187-193 | With bar-free names the ends of a call can be read off its key |
| EventCalls.KeyIsColumns | internal/indexer/event_topology.go:187-189 | With bar-free strings two calls have one key exactly if they agree on ends, relation, phase, path, line and column |
| EventCalls.KeysCollide | internal/indexer/event_topology.go:189-193 | Moving a bar from a name into the relation gives a different call the same edge key |
| EventTopology.CollisionLosesNode | internal/indexer/event_topology.go:189-201 | Where two calls share a key and each is the only way to its target, a callee walk never meets both targets |
| EventCalls.CollisionTable | internal/indexer/event_topology.go:187-193 | The two calls of KeysCollide make such a table: quiet, harmless, nothing withheld, and one key for two calls, so no untruncated walk over it is exact |
| EventCalls.KeysTellIff | internal/indexer/event_topology.go:187-193 | With bar-free names, keys tell the calls in view apart exactly when those of one key agree on resolution |
| TopologyReport.EventChain | internal/indexer/event_topology.go:24-51 | The whole query: all that BuildConclusions says of the report and BuildWalk of the walk, at the limits in force: at most 80 nodes, 320 edges and 20 paths, distances at most 6, roots and leaves whenever there is no cycle, every path along returned edges, the truncation flag, the exact condition, and the rows kept told by their columns |
| TopologyReport.BuildConclusions | internal/indexer/event_topology.go:290-368 | Node table, nearest first, roots, leaves, cycles and paths of the call graph between returned nodes, for any walk whose nodes are chained to the center; the paths lead to the farthest nodes, the farthest first and by id among those as far, and the missing-predecessor branch loses none |
| TopologyReport.BuildAdjacency | internal/indexer/event_topology.go:291-306 | The two maps are the call graph between returned nodes and its mirror image |
| TopologyReport.Summarize | internal/indexer/event_topology.go:307-331 | Each node once with its degrees, ordered by distance and id; roots and leaves are the sorted nodes without callers and without callees |
| TopologyReport.PathTo | internal/indexer/event_topology.go:350-365 | The predecessor walk ends, starts at the center, ends at the target, steps along predecessors, and never comes up empty if all nodes but the center have one |
| TopologyReport.Reversed | internal/indexer/event_topology.go:363-365 | Swapping from both ends reverses the slice |
| TopologyReport.PathsFromCenter | internal/indexer/event_topology.go:334-367 | One true path for each of the first targets, farthest first, up to the limit |
| TopologyReport.PathDistances | internal/indexer/event_topology.go:350-366 | The node at position i of a path has distance i, so a path has one node more than its target's distance |
| TopologyReport.PathsFollowEdges | internal/indexer/event_topology.go:220-223 | For every table consecutive nodes of a path are joined by a returned edge that the query of the first selects and the direction follows |
| TopologyReport.PathsTakeSteps | internal/indexer/event_topology.go:203-223 | In a quiet table each of these is an allowed step over an edge that touches both nodes |
| TopologyReport.ChainLimits | internal/indexer/event_topology.go:32-47 | The depth lies between 1 and 6, the node limit between 8 and 80, and the edge limit is four times that; what is asked for is what is taken within those bounds, and 3 steps and 32 nodes are the defaults |
| TopologyReport.DegreesAddUp | internal/indexer/event_topology.go:297-312 | In-degrees and out-degrees both sum to the number of distinct edges between returned nodes |
| TopologyReport.AcyclicHasRootsAndLeaves | internal/indexer/event_topology.go:313-332 | With an empty cycle list every returned node is reachable from a root and reaches a leaf |
| TopologyReport.RootAbove | internal/indexer/event_topology.go:313-315 | Without cycles some root reaches any given node |
| TopologyReport.LeafBelow | internal/indexer/event_topology.go:316-318 | Without cycles any given node reaches some leaf |
| GisMemo.StepKeeps | internal/indexer/gis_sidecar.go:92-161 | Every step of every caller keeps the protocol invariant |
| GisAnswers.RunKeeps | internal/indexer/gis_sidecar.go:92-161 | So does every run |
| GisAnswers.SingleFlight | internal/indexer/gis_sidecar.go:98-135 | Per key at most one pending entry, which is the one in the memo; no channel is closed twice; a completed entry in the memo is available; an owner finds its own entry when it completes it |
| GisAnswers.AnswersAreFlights | internal/indexer/gis_sidecar.go:121-161 | Every answer is the caller's own cancellation or the result of one completed entry whose flight, from creation to completion, overlaps the call; an available one names the inspection inside that flight |
| GisAnswers.AnswersFromEvents | internal/indexer/gis_sidecar.go:92-161 | Over every run, told by its events: an answer is what one caller of the same key found, available exactly if the inspection found the program and that caller had not been cancelled by its end, with the times of its beginning and end; or the caller itself was cancelled before the event that answered it |
| GisAnswers.InspectorGetsFinding | internal/indexer/gis_sidecar.go:118-134 | Whoever inspects gets what it finds, unless it was itself cancelled by then, whatever anybody else does |
| GisAnswers.WakingWaiterGetsResult | internal/indexer/gis_sidecar.go:138-151 | A waiter not cancelled when it wakes gets the result of its entry |
| GisAnswers.UnavailableHasCause | internal/indexer/gis_sidecar.go:92-161 | Behind an unavailable answer to a caller never cancelled lies an inspection that found nothing or whose own caller was cancelled |
| GisAnswers.WaitersShareResult | internal/indexer/gis_sidecar.go:124-161 | Whoever waits for an entry still waits for it, or got the result of that very entry, or was cancelled, in every continuation: all others share the owner's result |
| GisAnswers.InspectionOverlapsCall | internal/indexer/gis_sidecar.go:102-186 | The inspection behind an available answer ended after the caller arrived if and only if the caller did not arrive between its end and its completion |
| GisAnswers.LateArrival | internal/indexer/gis_sidecar.go:121-127 | A reachable state in which such a late caller was answered from an inspection that ended before its call |
| GisAnswers.CancelledNeverAvailable | internal/indexer/gis_sidecar.go:138-192 | A caller cancelled before its last gate never gets an available answer in any continuation |
| GisAnswers.SomeoneCanMove | internal/indexer/gis_sidecar.go:124-151 | A caller that has not returned can move, or waits for an owner that can |
| GisAnswers.EveryRunEnds | internal/indexer/gis_sidecar.go:92-161 | Without new calls and cancellations every interleaving answers all callers within three moves each |
| SearchIndex.SearchTable.Rebuild | internal/indexer/engine_data.go:513-531 | Dropping and refilling leaves the rows of all active files and the data types |
| SearchIndex.FullRowsTold | internal/indexer/engine_data.go:513-531 | The rebuilt table holds exactly the rows that the columns of visible files and the data types tell |
| SearchIndex.LanguageIff | internal/indexer/engine_data.go:527-530 | A text is indexed exactly if its language has english or simp in it, in any case |
| SearchIndex.SearchTable.DeleteFiles | internal/indexer/fts_refresh.go:112-122 | The batches together remove exactly the rows of the given files |
| SearchIndex.SearchTable.InsertFiles | internal/indexer/fts_refresh.go:128-156 | The batches together add exactly the rows of the given files, each file once |
| SearchIndex.SearchTable.RefreshForFiles | internal/indexer/fts_refresh.go:111-157 | The refresh leaves the multiset of kept and new rows for any two id sets |
| SearchIndex.SortedFileIds | internal/indexer/fts_refresh.go:158-167 | The positive ids, each once, ascending, whatever the map order |
| SearchIndex.RefreshIsRebuild | internal/indexer/fts_refresh.go:108-157 | Refreshing an up-to-date table gives the multiset of the full rebuild if and only if the id sets cover the edit |
| SearchIndex.ScanRefreshIsRebuild | internal/indexer/fts_refresh.go:108-157 | Where files outside the id sets keep their rows or have no active ones, old files are gone or overridden and new ones were not active, the refresh equals the rebuild |
| ScanFiles.RefreshFiles | internal/indexer/scan_files.go:173-365 | After a refresh of named files every file written anew stands under its id with the rows parsed from it, removed files and predecessors are gone, and every other file is as it was but for the mark of being overridden by a file with its path; and the edit is covered by the two id sets it collects |
| ScanFiles.ApplyJob | internal/indexer/scan_files.go:322-365 | One requested file: left as it is, or its predecessor gone, exactly the files of lower precedence with its path marked, and the file written anew with its rows; the id sets stay right |
| ScanFiles.RefreshIndex | internal/indexer/scan_files.go:495-500 | After such a refresh the full-text table is what a full rebuild over the edited tables would build |
| Overrides.OverridePass | internal/indexer/scan.go:449-482 | Every walked file is judged: hidden by the best-ranked source with the same relative path, else by the best rule that replaces its path, else visible |
| Overrides.OverrideWinners | internal/indexer/scan.go:453-458 | The winner of every relative path is a source that has it, and none that has it ranks better |
| Overrides.ReplacePathEvidence | internal/indexer/config.go:495-513 | A rule is found exactly if one of a better-ranked source covers the path; it is one of the best rank and, of those, a longest one |
| Overrides.UnderIff | internal/indexer/config.go:504 | A rule covers its own path and what lies below it, not a neighbour whose name starts alike |
| Overrides.EvidenceUnique | internal/indexer/scan.go:449-482 | The verdict depends neither on the order of the files nor on map order |
| Overrides.OneVisible | internal/indexer/scan.go:453-482 | Visible files with one relative path belong to one source |
| FullScan.TakeResult | internal/indexer/scan.go:553-615 | One result: skipped exactly if the record under its path matches, an error exactly if it must be parsed and cannot be, else replaced; files under other paths keep their records, and every visible file has the rows that parsing gives |
| FullScan.EditIndex | internal/indexer/scan.go:537-635 | In whatever order results arrive and files are removed, every walked file ends on record as it is or as it was skipped, no other file does, and the id sets cover the edit; the scan fails exactly if some file must be parsed and cannot be, and changes nothing if all are skipped and none is gone |
| FullScan.ScannedIsRead | internal/indexer/scan.go:2095-2185 | After a scan every hidden file, every text and every forced file is on record with its contents, and another one with older contents only if its size and time have not changed; a forced visible file is never skipped |
| FullScan.StopsAsRead | internal/indexer/scan.go:562-564 | A scan fails only if some visible file cannot be parsed, and does if that file must be read again |
| FullScan.SaneRows | internal/indexer/scan.go:1091-1181 | The rows of every visible file are what its extractor makes of a resource's path or of a text's contents |
| FullScan.Scan | internal/indexer/scan.go:230-877 | The whole scan, clean or over an old index, keeps the index in order and leaves the full-text table as a full rebuild would, whether it is refreshed or rebuilt |
| FullScan.CanonicalIff | internal/indexer/scan.go:2125-2185 | The records are those of the files as they are now if and only if no file was skipped whose relative path or content had changed |
| FullScan.ScanIsCleanScanIff | internal/indexer/scan.go:230-877 | A scan over an old index and a clean scan of the same files leave the same files with the same rows, but for the ids, if and only if the first skipped no file whose record was out of date |
| FullScan.MovedRoot | internal/indexer/scan.go:2180-2185 | A file recorded under another relative path is skipped if nothing else about it changed |
| FullScan.OneVisibleFile | internal/indexer/scan.go:449-482 | In an index of the files as they are now at most one visible file has any relative path |
| FullScan.SecondScanIdle | internal/indexer/scan.go:2125-2185 | In such an index a scan skips every file and removes none, unless told to parse again |
| SearchIndex.DatatypeRowsSurvive | internal/indexer/fts_refresh.go:158-167 | The data type rows of file 0 are neither removed nor added |
| SearchIndex.TrigramMatchesIff | internal/indexer/fts_refresh.go:79-96 | Equal counts and no missing id hold exactly when the two id sets are equal |
| SearchIndex.ScriptTextMatchesIff | internal/indexer/fts_refresh.go:47-64 | The three counts agree exactly when the indexed ids are the active scripts |
| TrigramIndex.RunMaintains | internal/indexer/db.go:941-972 | Over every run of row changes, bulk loads, trigger losses and opens, an index whose table and triggers are all there equals the localization values |
| TrigramIndex.OpenRepairs | internal/indexer/db.go:278-367 | After any run, an open leaves the index equal to the rows and all triggers in place, and advances the generation exactly when it repaired a ready index |
| TrigramIndex.OpenIsIdempotent | internal/indexer/db.go:369-383 | A second open repairs nothing and changes nothing |
| TrigramIndex.AbortedLoadIsRepaired | internal/indexer/db.go:245-266 | A load that dies after a reset leaves an unpublished database without triggers; the next open indexes it and gives it its triggers without publishing anything |
| TrigramIndex.TriggersAloneAreNotEnough | internal/indexer/db.go:274-277 | Recreating a lost trigger without a rebuild leaves a stale value that the count test accepts |
| TrigramIndex.Database.InsertLocalization | internal/indexer/db.go:943-945 | The row and, with its trigger, the index entry; the statement fails as a whole without the index table |
| TrigramIndex.Database.UpdateLocalization | internal/indexer/db.go:952-955 | The value and, with its trigger, the re-inserted index entry |
| TrigramIndex.Database.DeleteLocalization | internal/indexer/db.go:949-951 | The row and, with its trigger, the index entry go |
| TrigramIndex.Database.RebuildTrigram | internal/indexer/engine_data.go:563-577 | The index holds exactly the localization values |
| TrigramIndex.Database.BumpGeneration | internal/indexer/index_generation.go:36-51 | The stored counter advances, from missing to 1 |
| TrigramIndex.Database.EnsureSchemaWithRepair | internal/indexer/db.go:278-367 | The statement sequence does what one open does, judging before it creates the table |
| Levenshtein.LevenshteinDistance | internal/indexer/folder_schema.go:223-241 | The two swapped rows compute the recursively defined edit distance |
| Levenshtein.Symmetric | internal/indexer/folder_schema.go:223-241 | The distance is symmetric |
| Levenshtein.ZeroIffEqual | internal/indexer/folder_schema.go:223-241 | It is zero exactly for equal strings |
| Levenshtein.Triangle | internal/indexer/folder_schema.go:223-241 | It satisfies the triangle inequality |
| Levenshtein.DistanceIsLeastEdits | internal/indexer/folder_schema.go:223-241 | It is the least number of single-character edits that turn one string into the other |
| FolderSchema.RecordedConsistent | internal/indexer/folder_schema.go:62-76 | Recording keeps the directories closed under parents and in agreement with the children sets |
| FolderSchema.RecordedDirs | internal/indexer/folder_schema.go:62-76 | Recording adds the directory and all above it, and nothing else |
| FolderSchema.NormalizedIsNormal | internal/indexer/folder_schema.go:99-106 | The directory of a path never starts with a slash, and has no empty segment exactly if the path has none once the slashes at its ends are dropped |
| FolderSchema.DirectoryIs | internal/indexer/folder_schema.go:99-106 | The directory of a path is what stands before its last slash, and none for a file at the root; case, the kind of slash and slashes at the ends do not matter |
| FolderSchema.DoubleSlashBreaks | internal/indexer/folder_schema.go:62-76 | A directory ending in an empty segment is filed so that the children name no known directory |
| FolderSchema.StrayVerdict | internal/indexer/folder_schema.go:127-168 | After such a directory "x/" the nearest sibling of an unknown directory of x is x itself exactly when their names are similar, so the verdict names "x/x", which is no directory |
| FolderSchema.TypoIsSimilar | internal/indexer/folder_schema.go:181-207 | Two one-token names of at least five characters that are one edit apart are similar |
| FolderSchema.FirstRecordConsistentIff | internal/indexer/folder_schema.go:62-76 | The first path recorded leaves agreement if and only if its directory has no empty segment |
| FolderSchema.RecordedFaithful | internal/indexer/folder_schema.go:62-76 | Every record, whatever the path, keeps the directories closed under parents and filed under them, and the children sets free of anything not so filed |
| FolderSchema.ConsistentIff | internal/indexer/folder_schema.go:62-76 | After any records the directories agree with the children sets if and only if each directory that ends in a slash has, one level below, a directory of its own name |
| FolderSchema.FolderIndex.Record | internal/indexer/folder_schema.go:62-76 | The loop files every level up to the root, keeps agreement for every path without an empty segment between its ends, and otherwise leaves agreement exactly under the condition of ConsistentIff |
| FolderSchema.FolderIndex.Evaluate | internal/indexer/folder_schema.go:127-148 | A verdict is given only for an unknown directory under a known one with a near sibling, and names the nearest one, a directory that exists |
| FolderSchema.NearestSibling | internal/indexer/folder_schema.go:150-168 | Whatever the map order, the running best ends at the first name among those of the highest score, or at none if there is no candidate |
| FolderSchema.NearestUnique | internal/indexer/folder_schema.go:150-168 | That answer is unique |
| FolderSchema.Similarity | internal/indexer/folder_schema.go:181-207 | A score lies above 0 and at most 1 |
| FolderSchema.SimilarIff | internal/indexer/folder_schema.go:181-207 | Names are similar exactly if they share their head token and at least half of their tokens, or both have five characters and at most two edits lie between them |
| FolderSchema.FewerEditsNearer | internal/indexer/folder_schema.go:198-207 | Of two siblings of one length that are similar by their edits, the one with fewer is nearer |
| FolderSchema.MoreSharedNearer | internal/indexer/folder_schema.go:187-197 | Of two siblings similar by their tokens, with as many tokens, the one that shares more is nearer |
| FolderSchema.RenamedIsSimilar | internal/indexer/folder_schema.go:170-207 | A plural and the same noun with a suffix, like religions and religion_types, are similar with score one half |
| FolderSchema.SingularIs | internal/indexer/folder_schema.go:209-221 | A plural is a token of four letters or more that ends in a single s |
| FolderSchema.SharedIs | internal/indexer/folder_schema.go:187-196 | Shared tokens are the places of the one name that hold a token of the other |
| Publication.GeneratedNameIsValid | internal/indexer/database_publication.go:82-95 | Every generated name passes the validator |
| Publication.ValidIff | internal/indexer/database_publication.go:82-88 | The validator accepts exactly the names without a slash between the generation prefix and the suffix |
| Publication.RootRecovered | internal/indexer/database_publication.go:31-37 | The sweep derives a generation's name from each of its sibling files |
| Publication.GlobbedRootIsValid | internal/indexer/database_publication.go:25-41 | Whatever the glob finds, the derived root is a valid generation name |
| Publication.SidecarsSpare | internal/indexer/database_publication.go:42-55 | No file removed with one root is the pointer, the anchor or another generation |
| Publication.PointerRoundTrip | internal/indexer/database_publication.go:67-115 | The line written to the pointer is read back as the name |
| Publication.StepKeeps | internal/indexer/database_publication.go:97-157 | Every file operation, a crash between any two, and every lock-free removal by a database manager keeps the invariant, if no name is promoted that was published before |
| Publication.RunKeeps | internal/indexer/database_publication.go:19-158 | So does every run |
| Publication.EveryRunResolves | internal/indexer/database_publication.go:19-158 | After every run the pointer resolves to the existing generation published last, or to the anchor; no pending removal, with or without the lock, is that target or the pointer, and none without the lock a file of the publication under way |
| Publication.LooseSpares | internal/mcpserver/database_manager.go:395-419 | What a manager may remove belongs to a database published once and no longer the target, and is not the target, the pointer, the generation in hand or its temporary file |
| Publication.RetireOpenedKeeps | internal/mcpserver/database_manager.go:485-507 | Retiring an opened database that is no longer the target keeps the invariant, whatever the holder of the lock is doing |
| Publication.ReusedNameLoses | internal/indexer/refresh_full.go:557-577 | Without fresh names it would fail: publishing a name again whose lock-free removal is pending lets that removal take the target away |
| Publication.PublicationIsTheRename | internal/indexer/refresh_full.go:557-577 | Only the rename of the pointer changes what readers resolve to; a publication cut short leaves the old target |
| Publication.PublicationSucceeds | internal/indexer/refresh_full.go:557-571 | In every state in order an uninterrupted publication under a free name succeeds and readers are led to it |
| Publication.RetirementIff | internal/indexer/database_publication.go:136-158 | A retirement may begin exactly for the anchor or a valid name that is not the target, by the holder of the lock or by a manager that opened it, and is to remove its four files |
| Publication.ResolvesToTarget | internal/indexer/database_publication.go:58-80 | In every state in order, resolution yields the target |
| Baselines.BaselineStore.SaveDiagnosticBaseline | internal/indexer/diagnostic_baseline.go:177-223 | The snapshot row and one entry for each distinct key, for its first finding; the count is the number of distinct keys; the revision advances |
| Baselines.BaselineStore.ClearDiagnosticBaseline | internal/indexer/diagnostic_baseline.go:261-292 | The name is forgotten with all its entries; what it held and whether it existed are reported |
| Baselines.BaselineStore.DiagnosticBaselineSet | internal/indexer/diagnostic_baseline.go:303-332 | An error exactly for a non-blank name without snapshot, otherwise its key set |
| Baselines.BaselineStore.CopyPreservedPublicationTables | internal/indexer/diagnostic_baseline.go:72-135 | Whatever tables the live database has, the staged ones become equal to them with missing snapshots adopted |
| Baselines.BaselineStore.AdoptOlderSnapshots | internal/indexer/db.go:323-329 | Each name known only from entries gets a snapshot dated by its latest entry; nothing else changes |
| Baselines.FilterDiagnosticsAgainstBaseline | internal/indexer/diagnostic_baseline.go:335-347 | The report without the recorded findings, in order, also through the shortcut for an empty baseline |
| Baselines.RunRefines | internal/indexer/diagnostic_baseline.go:72-292 | Over every run of saves, clears and publications the two tables refine one map from names to key sets, whatever tables the run starts from |
| Baselines.SaveRefines | internal/indexer/diagnostic_baseline.go:189-218 | A save replaces the key set of one name, also by the empty set, and touches no other |
| Baselines.ClearRefines | internal/indexer/diagnostic_baseline.go:278-288 | A clear removes one name |
| Baselines.AdoptRefines | internal/indexer/diagnostic_baseline.go:132-134 | Adoption and publication change no key set and leave every entry with a snapshot |
| Baselines.AdoptedUnique | internal/indexer/diagnostic_baseline.go:132-134 | Adoption has one possible result |
| Baselines.LookupFailsIff | internal/indexer/diagnostic_baseline.go:303-315 | After any run a lookup fails exactly for the names not saved since their last clear; a baseline of no findings is found |
| Baselines.SavedBaselineHidesAll | internal/indexer/diagnostic_baseline.go:335-347 | However the index is rebuilt and other names change, filtering a report of the recorded findings by their baseline leaves nothing |
| Baselines.HiddenIff | internal/indexer/diagnostic_baseline.go:149-155 | A finding is hidden exactly when a recorded one has its source and fingerprint, if no source holds the separator |
| Baselines.ReportedKey | internal/indexer/diagnostic.go:45-62 | Filling in the fingerprint for a report does not change the baseline key |
| Baselines.NamesMerge | internal/indexer/diagnostic_baseline.go:137-144 | Two names are one exactly if they are equal but for case and the blanks around them; a blank name is the default one |
| CoatOfArms.WalkParents | internal/indexer/coat_of_arms.go:286-308 | For any parent relation the walk ends with at most 16 ancestors of pairwise distinct ids, each the definition its child names, and stops for the right reason |
| CoatOfArms.WalkedUnique | internal/indexer/coat_of_arms.go:286-308 | That chain and reason are unique |
| CoatOfArms.CompleteIff | internal/indexer/coat_of_arms.go:289-298 | The walk is complete exactly when the parents lead, within the bound, to a definition without one: cutting cycles never cuts a chain that ends |
| CoatOfArms.CutMeansEndless | internal/indexer/coat_of_arms.go:295-298 | A walk cut as circular has no end at any length |
| CoatOfArms.ResolveCoatOfArmsParents | internal/indexer/coat_of_arms.go:284-332 | The fold of the chain with the warnings of the walk; the definition untouched when a parent is withheld or cannot be read |
| CoatOfArms.StopWarningsTell | internal/indexer/coat_of_arms.go:291-309 | A warning is given exactly for a walk cut short, and names what cut it |
| CoatOfArms.InheritFrom | internal/coatofarms/model.go:42-66 | The slot loop and the merges give the design drawn over the parent, with its warnings recomputed |
| CoatOfArms.NearestPattern | internal/coatofarms/model.go:44-46 | The resolved pattern is that of the nearest definition that has one |
| CoatOfArms.NearestColor | internal/coatofarms/model.go:47-52 | Each colour slot is that of the nearest definition that sets it, or the furthest one's default |
| CoatOfArms.EmblemsFurthestFirst | internal/coatofarms/model.go:53-62 | The emblems of each definition stand in order right after those of all further ones |
| CoatOfArms.InheritedNearestFirst | internal/coatofarms/model.go:63 | The inherited ids are the ancestors, nearest first |
| CoatOfArms.PatternWarningIff | internal/coatofarms/model.go:281-288 | With an ancestor, the missing-pattern warning is given exactly when no definition of the chain has a pattern |
| CoatOfArms.WarningsTell | internal/coatofarms/model.go:281-299 | When a definition warns: nothing to draw, a field filled with the first colour, an emblem without texture, colours that no palette resolves |
| CoatOfArms.EffectiveColors | internal/coatofarms/model.go:229-237 | An emblem's own colour where it sets the slot, the definition's elsewhere |
| Dds.DecodeDDS | internal/coatofarms/dds.go:37-115 | The header checks in their order; every pixel of an accepted file is the texel of its block or the fields of its masks, and nothing outside the data is read |
| DdsFiles.HeaderRead | internal/coatofarms/dds.go:37-126 | Decoding reads each field of a header, written byte by byte, from where it was written |
| DdsFiles.EveryFile | internal/coatofarms/dds.go:37-46 | Every file of at least 128 bytes is a header so written, followed by pixels |
| DdsFiles.CompressedAccepted | internal/coatofarms/dds.go:44-86 | Every compressed file of every size from 1 to 8192 is accepted as what it was written as if it holds all its blocks, and refused if it is shorter |
| DdsFiles.UncompressedAccepted | internal/coatofarms/dds.go:121-136 | So is every uncompressed file with any masks |
| DdsFiles.OthersRefused | internal/coatofarms/dds.go:38-76 | All other files are refused, for the first reason that applies |
| DdsFiles.ShortRefused | internal/coatofarms/dds.go:38-40 | A file shorter than a header is refused as such |
| DdsFiles.BlockRead | internal/coatofarms/dds.go:89-236 | A texel of a block, written from two packed colours, sixteen codes and sixteen alphas, is the colour meant by its own code |
| DdsFiles.CompressedImage | internal/coatofarms/dds.go:89-115 | A whole image written block by block is decoded pixel by pixel into what was written |
| DdsFiles.UncompressedImage | internal/coatofarms/dds.go:121-160 | So is an image written row by row with its channels in any bytes of a pixel |
| Dds.DecodeBlocks | internal/coatofarms/dds.go:89-114 | Pixel (x, y) is texel y%4*4+x%4 of block (x/4, y/4), with partial blocks at the edges |
| Dds.WriteBlock | internal/coatofarms/dds.go:101-112 | Exactly the pixels of one block that lie inside the image are written |
| Dds.DecodeBC1Block | internal/coatofarms/dds.go:183-201 | Each texel is the colour its two-bit code selects |
| Dds.DecodeBC2Alpha | internal/coatofarms/dds.go:204-210 | Each texel gets its four-bit alpha and keeps its colour |
| Dds.DecodeBC3Alpha | internal/coatofarms/dds.go:213-236 | Each texel gets the alpha its three-bit code selects and keeps its colour |
| Dds.CodeBits | internal/coatofarms/dds.go:186-235 | Bit k of the code of a texel is bit (at + k) mod 8 of byte (at + k) / 8 of its block part, for codes of any width, also across bytes |
| Dds.TransparentIff | internal/coatofarms/dds.go:191-197 | A texel is transparent exactly for code 3 of the one-bit alpha mode |
| Dds.RampMonotone | internal/coatofarms/dds.go:213-228 | The interpolated alphas run monotonically between the endpoints; the six-step ramp adds 0 and 255 |
| Dds.Mix | internal/coatofarms/dds.go:251-256 | A mixed channel lies between its two ends and is a byte |
| Dds.PackedColor | internal/coatofarms/dds.go:238-249 | Unpacking a packed 5-6-5 colour gives each channel its own bits, scaled to within one step of exactness |
| Dds.ColorRampOrdered | internal/coatofarms/dds.go:188-198 | In the four-colour mode the codes 0, 2, 3, 1 run from the first endpoint to the second in every channel; in the three-colour mode code 2 lies between them and code 3 is transparent |
| Dds.ExtractChannel | internal/coatofarms/dds.go:163-177 | The shift loop ends at the lowest bit of the mask and gives the channel in 32-bit arithmetic |
| Dds.ChannelExact | internal/coatofarms/dds.go:171-176 | With a shifted mask of at most 0x01010101 nothing wraps and the channel is the exact quotient |
| Dds.ChannelMonotone | internal/coatofarms/dds.go:171-176 | Under that bound the channel grows with the field |
| Dds.FullScaleIff | internal/coatofarms/dds.go:163-177 | A full field reads as 255 if and only if the shifted mask is at most 0x01010101 |
| Dds.ByteMaskReadsByte | internal/coatofarms/dds.go:117-160 | A mask over any byte of a pixel reads that byte unchanged, so no byte order is assumed |
| Dds.DecodeUncompressed | internal/coatofarms/dds.go:121-160 | Every pixel is the fields of its masks at its own offset, opaque without an alpha mask |
| Diagnostics.AggregateDiagnostics | internal/indexer/diagnostic.go:153-186 | The loop with its index by fingerprint and the sort give the sorted grouping |
| Diagnostics.Place | internal/indexer/diagnostic.go:157-172 | One diagnostic joins the group of its key or opens a new one, and the index stays right |
| Diagnostics.GroupedIsGrouping | internal/indexer/diagnostic.go:153-173 | One group for each key; it is the first member with the occurrences of the whole class |
| Diagnostics.AggregatedIsSortedGrouping | internal/indexer/diagnostic.go:153-186 | The aggregate is such a grouping, ordered by rank, code, path and line |
| Diagnostics.AggregationConserves | internal/indexer/diagnostic.go:153-186 | The total of occurrences, each at least one, is preserved |
| Diagnostics.AggregationIsIdempotent | internal/indexer/diagnostic.go:153-186 | Aggregating an aggregate changes nothing |
| Diagnostics.ReportOrderComposes | internal/indexer/diagnostic.go:62-88 | After both stable sorts the order is severity, project first, rank, code, path, line |
| Diagnostics.InReportOrder | internal/indexer/diagnostic.go:62-88 | The aggregate runs by rank, code, path and line, and a report by severity, the project's own layer first, and then so |
| Diagnostics.FingerprintTells | internal/indexer/diagnostic.go:115-126 | Two diagnostics have one fingerprint exactly if they have one code, one target but for case and, unless the code is global, one place |
| Diagnostics.QuotedTargetIs | internal/indexer/diagnostic.go:116-121 | The target is what stands between the first two quotes of a message, or all of it |
| Diagnostics.RankMeans | internal/indexer/diagnostic.go:128-146 | Errors first, then what is surely wrong in scopes and references, missing resources, texts, the rest, and last what is uncertain |
| Diagnostics.SeverityMeans | internal/indexer/diagnostic.go:90-99 | Errors before warnings before all else |
| Diagnostics.PriorityMeans | internal/indexer/diagnostic.go:68-88 | Severity first, then the findings of the layer that bears the project's name in any case |
| EngineBundle.Bundles.LoadEngineBundle | internal/indexer/engine_bundle.go:80-105 | Every answer, read or cached, holds the contents of every instant of a span within the call, if writes give fresh stamps, whatever other loads publish meanwhile; without the cache the span is all that lies between two looks at every input. It is a snapshot of an instant of the span if and only if at one of them none of the inputs it leaves out existed. It fails only if a required input or the directory was missing, an input vanished, or inputs changed during both attempts; over inputs that stay the same and are complete it answers with all of them, optional ones or not |
| EngineBundle.Bundles.EngineInputPlan | internal/indexer/engine_bundle.go:107-168 | Each input is looked at once during the plan, and the manifest says what was seen; it fails only if a required file or the directory was missing, or a listed file vanished |
| EngineBundle.Bundles.ReadEngineBundle | internal/indexer/engine_bundle.go:170-215 | Each present input is read once during the read; it fails only if one of them was missing |
| EngineBundle.Bundles.CachedBundleForManifest | internal/indexer/engine_bundle.go:376-384 | A hit exactly for the stored manifest |
| EngineBundle.Bundles.CacheEngineBundle | internal/indexer/engine_bundle.go:386-398 | A new root goes to the end of the order and, where eight are there already, pushes out the oldest; the order stays free of repetitions and equal to the cached roots |
| EngineBundle.DoubleChecked | internal/indexer/engine_bundle.go:91-103 | Equal manifests before and after: the contents read are those of every instant between the two looks |
| EngineBundle.ReadIsPromised | internal/indexer/engine_bundle.go:91-103 | So a read answer is promised for all the time between the looks |
| EngineBundle.SteadyNeverFails | internal/indexer/engine_bundle.go:80-105 | Over inputs that stay the same with all required ones there, nothing that can make a load fail happens |
| EngineBundle.SteadyAnswer | internal/indexer/engine_bundle.go:80-105 | And what is promised then is all inputs as they are |
| EngineBundle.LooksDiffer | internal/indexer/engine_bundle.go:99-104 | Two looks with different results show that an input came, went or was written in between |
| EngineBundle.StillSettled | internal/indexer/engine_bundle.go:86-90 | A cached bundle whose manifest is seen again is still current when the call began |
| EngineBundle.Removal | internal/indexer/engine_bundle.go:91-103 | An input that exists at one instant and is absent at a later one was removed in between, as the first thing that happened to its existence |
| EngineBundle.SnapshotIff | internal/indexer/engine_bundle.go:80-105 | An answer is a snapshot of a given instant it holds for if and only if no input it leaves out was removed after that instant |
| EngineBundle.SnapshotWithinIff | internal/indexer/engine_bundle.go:80-105 | A bundle that holds for a span of instants is a snapshot of one of them if and only if at one of them none of the inputs it leaves out existed |
| EngineBundle.CachedIsPromised | internal/indexer/engine_bundle.go:86-90 | A cached bundle is promised over a span of instants of the load that finds it, whichever load read it and whether before or during this one |
| EngineBundle.AnswersAreSnapshots | internal/indexer/engine_bundle.go:80-105 | If no left-out input is removed between the instant of an answer and its return, the answer is a snapshot of that instant |
| EngineBundle.AlternatingInputs | internal/indexer/engine_bundle.go:91-103 | Two optional inputs that come and go in turn pass both looks as missing although no instant lacks both |
| Order.StableSortComposes | internal/indexer/diagnostic.go:70-88 | A stable sort of a sorted list is ordered by the second key, ties by the first |
| Order.SortedKeys | internal/indexer/event_topology.go:384-388 | Collecting map keys in any order and sorting them gives the one strictly ascending listing |
| Order.LeqIff | internal/indexer/event_topology.go:417-428 | One string comes before another exactly if it is a beginning of it or has the lower character where they first differ |

## Left out

- EventTopology.BuildWalk: tables in which the bare name of a call is itself the id of an untyped node within reach are left out of the condition; the order of the queries would decide there what is lost. So are calls in view that share their key with a withheld one, where the order of the rows decides.
- Failing database queries inside a walk, the details that evidence adds to nodes and edges, and the final sort of the edge list, which depends on nothing else.
- Public mode is a set of withheld sources; how the set is derived from options is not modelled.
- The choice of the event-chain center by name lookup.
- GIS configurations that cannot be memoized, the texts of the reasons, and what an inspection does: it is an oracle that says available or not.
- GIS inspection times count steps of the state machine, not clock time.
- Triggers and rebuild of the script-text index; only its acceptance test is modelled. The stored row count of the semantic table is left out.
- SQL errors, transactions cut short and crashes inside a schema open: the trigram property is stated at returns.
- Database generations and revisions are unbounded integers; 64-bit overflow and a stored generation that is not a number are not modelled, nor is the random revision beside the counter.
- TrigramIndex.Database.BumpGeneration: the random revision and the time of the commit are not modelled.
- FullScan.Scan: sizes and times of files, resolution of references, diagnostics and the map cache are left out, as is the early return of a scan that finds nothing to do. Which files are walked, and errors of reading them, are input. A hash stands for the contents. No file is walked twice, so no source may start inside another.
- FullScan.EditIndex: the index it starts from is taken to hold, for every visible file, the rows of its record, and an accepted full-text table to be current. Full scans keep that; for a refresh of named files it is not proved.
- Lower-casing covers ASCII letters only, and strings are sequences of characters where Go has bytes.
- FolderSchema.Similarity: scores are real numbers, so ties that 64-bit rounding would create are not modelled.
- Publication.EveryRunResolves: file names are compared exactly; case folding and symbolic links on the way to the anchor are left out, the age test of the sweep is arbitrary, and every publication, sweep and retirement by a scan is taken to hold the publication lock. A random revision is taken never to repeat, and a manager to have opened a published database. Leases are not modelled: a manager may retire what it has opened at any time.
- Listing baselines, and the error returns of their statements.
- Baselines.BaselineStore.CopyPreservedPublicationTables: columns of older live tables that differ from the current ones are not modelled.
- Emblem instances, lines and textures of coats of arms; colour names of a warning are a set, not a sorted text.
- CoatOfArms.WalkParents: the index holds one definition for each id without regard to case, which is what the lookup returns.
- The shifts and the bit-or that expand colour channels are written as multiplication, division and addition.
- EngineBundle.Bundles.LoadEngineBundle: cancellation, parsing and hashing are left out: a bundle is the contents read. A file can only be there or not: other errors of the file system, and files that are not regular, are not modelled.
- Rendering, colour arithmetic, GUI models, map tools, document generation and command dispatch would only add easy members or floating-point work.
