# Canvas server: verified model

This project models, in Dafny, the three parts of the canvas server that carry its guarantees, and proves what they promise.

**The canvas document and its commit protocol** (`internal/graph`). A canvas holds nodes, edges, a viewport and settings, and changes only by batches of fourteen kinds of operation. A batch is applied to a clone, records inverse operations, moves the version by one and is appended to a log. Writes are checked against the version; a stale write is merged when it touches nothing that changed meanwhile. `CanvasDocument` is the document with its operations in place; each operation is proved against a transition function, and structural invariants, undo, replay, merging and all interleavings of several servers are proved about those functions. The table of node schemas is a parameter, so single-input ports count although the built-in schemas have none.

**Plans and runs** (`internal/exec`). A plan is collected depth first from target nodes, sorted, and executed step by step with retries, skipping and cancellation; submissions with one idempotency key share a run; usage is priced in integers. The provider, the clock and cancellation are parameters (`World`).

**The script language** (`internal/sandbox`). A recursive-descent parser with a nesting limit, an evaluator with a step budget, host functions, and a static analysis shown before a script runs. `Text` stands for a piece of source text: the words the grammar looks for are its constructors and every other text is `Other`. What operators and host functions compute from values is a parameter (`Values`); which arguments they evaluate, in which order and at what cost, is modelled.

Where the code changes things step by step the model does too: classes with fields, loops with invariants. Proof bodies hide the definitions they do not need, which keeps them fast.

## Findings

The theorems state what the code does, which in these places is less than its comments or names suggest.

- Plugin node types contain a colon, which the type-name check forbids, so no plugin node is ever accepted.
- An ungroup with `keepChildren=false` leaves the edges of the deleted children and the parent links of their own children behind. It is safe exactly when the children are leaves; even otherwise no cycle can arise.
- `set_spec` tells a missing required field by the words of the message, so an unknown capability holding these words is stored.
- The agent's undo applies recorded inverses first to last. That is right for independent changes, and wrong for two moves of one node unless the first led nowhere. It cannot decode the lists recorded for `remove_node`, `group` and `ungroup`, and it is refused for every batch that adds a node and then links it, which is what the agent's prompt tool does.
- Undo is not exact for an edge that replaced another, a title set from empty, a configuration or meta patch that added keys, a group that moved its rectangle, some state changes, and never for a child-deleting ungroup; `Undo.Undoable` is the exact condition.
- Two moves, or two resizes, of one node are merged although their order matters; `Rebase.GeometryAgrees` lists the pairs for which it does not.
- A stale removal is merged over an in-flight title, state, parent link or edge of the node, which go with it.
- A rebase inspects only the first `current-base+16` records, so a write further on can be overwritten: after one batch of eighteen operations the last one is not seen.
- The replay audit compares versions, and replay counts one per operation: it reports a difference for every canvas that ever took a batch of two.
- After a canvas is deleted and re-created under the same ID, the in-memory version index is stale for the versions below that of the deletion. The service always takes a new ID (`internal/graph/service.go:66`) and deletes no document, so only code that uses the store directly can get there.
- A finished plan is sorted by step ID, not by dependency. When an edge between needed nodes goes down in ID order, a run can be reported as succeeded with a step skipped.
- Inputs are read when a run is compiled. A node fed by one that never ran is refused even when that one is part of the same run, and what a step is given is its source's earlier result.
- Inputs of kinds without a word of their own share one, so two inputs of a step can carry the same label.
- A run canceled before its first step leaves its steps queued; canceling later also turns skipped steps into canceled ones.
- The idempotency entry is workspace, a bar and the key, so workspaces of which one followed by a bar begins the other can share entries. Workspace IDs are made as `ws_` and a UUID (`internal/identity/service.go:201`, `internal/platform/id.go:18-23`), so no ID the program makes has a bar.
- Where a statement may start, a string literal holding only a semicolon or a closing brace is read as that punctuation.

## Files

| file | contents |
|---|---|
| `Digraphs`, `Ordering` | paths, cycles and reachability; string order, sorted enumerations |
| `Documents`, `Operations`, `Canvas`, `Batches` | document types and schemas; transition functions; the mutable document; batches |
| `Effects`, `Refusals`, `GroupGeometry` | what each operation does, field by field, and exactly when it is accepted; which error a refused one gives; the rectangle of a group |
| `WellFormed`, `CycleCheck`, `CycleFreedom`, `Ungrouping` | structural invariants; the two graph searches; what keeps every document free of cycles; the one operation that breaks the other invariants |
| `Regrouping`, `Undo`, `AgentUndo` | parent links put back; undo by recorded inverses; the agent's order |
| `Rebase`, `MergeRules`, `Store`, `Replay`, `Service`, `Protocol` | merging; its rules pair by pair; the in-memory store; replay; one write; all interleavings |
| `Plans`, `StepOrder`, `Inputs`, `Compiling`, `LatePlan` | collection; topological sort; inputs of a step; the finished plan; a canvas whose plan is out of order |
| `Execution`, `RetryRules`, `Reports`, `Metering`, `Submissions` | runs; when a step is tried again; what a report means; pricing; idempotent creation |
| `Syntax`, `Grammar`, `GrammarRules`, `Scripts`, `Parser` | tokens and trees; the grammar; rules read off small inputs; the parser object |
| `Printing`, `RoundTrip`, `Reprinting`, `ScriptPrinting` | the printers and the round trips |
| `Evaluation`, `Branching`, `Interpreter`, `ScriptSafety`, `Noninterference`, `Analysis`, `ReadingOrder` | evaluation; which part runs next; the interpreter object; step bounds and calls; free variables; the report; the report against the text |

The main results are those about whole runs, batches and texts: `Protocol`, `Undo`, `Regrouping`, `AgentUndo`, `Rebase`, `MergeRules`, `CycleFreedom`, `WellFormed`, `Replay`, `Store`, `Compiling`, `Reports`, `Submissions`, `RoundTrip`, `Reprinting`, `ScriptPrinting`, `Noninterference`, `ScriptSafety` and `ReadingOrder`. `Effects`, `Refusals`, `GroupGeometry`, `RetryRules`, `GrammarRules` and `Branching` tie the definitions these results rest on to rules stated without them, with the limits as numbers, so that a wrong branch or constant in a definition is caught there.

## Model

| member | source | states |
|---|---|---|
| Schemas.PluginTypesAreInvalid | internal/graph/spec.go:201-215 | a type that passes the type-name check is never a plugin type, so the plugin branch of the schema lookup is dead and plugin nodes are refused |
| SchemaDeclarations.DeclaredTablesAreStrict | internal/graph/spec.go:218-273 | a configuration that is not rejected outright, even one only missing a required field, names declared fields and no others |
| SchemaDeclarations.CapabilityVerdictExactly | internal/graph/spec.go:265-272 | a generation configuration holding only a capability is let through by a change if and only if the capability is known or its text holds the words by which `set_spec` (op_apply.go:257-262) tells a missing field |
| SchemaDeclarations.CapabilityExactly | internal/graph/spec.go:368-375 | a capability is valid if and only if it is one of the eight known ones with white space around it |
| SchemaDeclarations.AcceptedExactly | internal/graph/spec.go:218-273 | a configuration is accepted if and only if it names declared fields only, has the required ones, each value is of the field's kind, and prompt length, asset ID, output count and capability are within their rules |
| SchemaDeclarations.RejectedAs | internal/graph/spec.go:218-273 | a prompt whose text alone is wrong, for being longer than 32768 bytes, is too large; whatever else is rejected is invalid |
| SchemaDeclarations.MissingExactly | internal/graph/spec.go:229-233 | with declared fields only, a missing required one is reported as such whatever the values are |
| Canvas.CanvasDocument.AddNode | internal/graph/op_apply.go:59-106 | new state, error or recorded inverse are exactly those of the `add_node` transition: ID, type, schema, geometry, parent and count checks, then one new node |
| Canvas.CanvasDocument.RemoveNode | internal/graph/op_apply.go:108-150 | removes the node and its edges, unparents the children, and records the re-add, reparent and re-link list as inverse |
| Canvas.CanvasDocument.MoveNode | internal/graph/op_apply.go:157-181 | moves one node, absolutely or by a delta, and records the old position |
| Canvas.CanvasDocument.ResizeNode | internal/graph/op_apply.go:183-200 | resizes one node, optionally keeping the aspect ratio, and records the old size |
| Canvas.CanvasDocument.SetTitle | internal/graph/op_apply.go:207-224 | replaces the title after the length check and records the old one |
| Canvas.CanvasDocument.SetSpec | internal/graph/op_apply.go:226-282 | patches and unsets configuration fields, or meta entries when any are given, with the recorded inverse the code keeps |
| Canvas.CanvasDocument.SetState | internal/graph/op_apply.go:385-413 | sets state, result and error with the idle-clears rule |
| Canvas.CanvasDocument.AddEdge | internal/graph/op_apply.go:415-490 | all edge checks in order, replacement on a single-input port, the cycle check on what remains, then the stamped edge |
| Canvas.CanvasDocument.RemoveEdge | internal/graph/op_apply.go:492-499 | removes one edge and records it |
| Canvas.CanvasDocument.Group | internal/graph/op_apply.go:501-554 | creates a group around the listed nodes, adopting them one by one with the parent check |
| Canvas.CanvasDocument.Ungroup | internal/graph/op_apply.go:556-587 | dissolves a group, freeing or deleting its children |
| Canvas.CanvasDocument.SetParent | internal/graph/op_apply.go:645-662 | moves a node under a group or to the top after the parent check |
| Canvas.CanvasDocument.SetViewport | internal/graph/op_apply.go:589-596 | replaces a valid viewport and records the old one |
| Canvas.CanvasDocument.SetSettings | internal/graph/op_apply.go:598-643 | applies a patch of known settings of the right kinds, or refuses it, and records all old settings |
| Canvas.CanvasDocument.Clone | internal/graph/doc.go:229-266 | a document of its own with the same contents, version and time |
| Batches.Dispatch | internal/graph/op_apply.go:19-52 | each of the fourteen operation kinds reaches its own transition |
| Batches.Apply | internal/graph/op.go:245-272 | a batch is the fold of its operations over a clone: the original stays as it was, the version grows by one, inverses are recorded first to last, and one refusal refuses all |
| Effects.AddNodeEffect | internal/graph/op_apply.go:59-106 | accepted if and only if ID, type, configuration, geometry, title, state, count and parent are in order; the node is stored as given but for its schema's ports and the state idle in place of none |
| Effects.RemoveNodeEffect | internal/graph/op_apply.go:108-150 | accepted if and only if the node exists and, without cascade, has no edge; exactly the node and its edges go and its children move to the top |
| Effects.MoveEffect | internal/graph/op_apply.go:157-181 | the place given, or the old one plus the offset, if the numbers and the new rectangle are in range, and otherwise a geometry error |
| Effects.ResizeEffect | internal/graph/op_apply.go:183-200 | the size given, or the width with the height in proportion, if in range |
| Effects.SetTitleEffect | internal/graph/op_apply.go:207-224 | a title of at most 200 bytes replaces the old one unless it is empty |
| Effects.SetSpecEffect | internal/graph/op_apply.go:226-282 | key by key the new configuration; kept if and only if all keys named are schema fields and the verdict does not reject the whole |
| Effects.SetMetaEffect | internal/graph/op_apply.go:284-330 | key by key the new meta; kept if and only if keys are proper, no value is null and at most 64 remain; the configuration stays, whatever else is given |
| Effects.RemovedExactly | internal/graph/op_apply.go:284-330 | a meta change is recorded to have dropped exactly the keys it unset that were there, each once |
| Effects.SetStateEffect | internal/graph/op_apply.go:385-413 | state, result and error afterwards, for idle, for the other four states and for any other word |
| Effects.AddEdgeEffect | internal/graph/op_apply.go:415-490 | on a well-formed document an edge between two matching ports is accepted if and only if its ID is new and valid, there is room and it closes no cycle of the edges that remain; kind, author and time are filled in only where missing |
| Effects.CheckEdgeExactly | internal/graph/op_apply.go:415-460 | the checks pass if and only if ID and room are in order and the edge joins an output to an input of one kind on two different nodes, neither a group |
| Effects.FindPortExactly | internal/graph/op_graph.go:11-18 | the port found is the first with the ID |
| Effects.RemoveEdgeEffect | internal/graph/op_apply.go:492-499 | exactly that edge goes |
| Effects.GroupEffect | internal/graph/op_apply.go:501-554 | on a well-formed document accepted if and only if the group exists and every listed node exists, is no group and may go under it; exactly the listed nodes change parent |
| GroupGeometry.GroupTakesRect | internal/graph/op_apply.go:515-552 | the group takes the given rectangle, or else the one with margin 24, and 52 at the top, around the listed nodes, touching the margin on each side, if that is in range; no other node moves |
| GroupGeometry.OneFits | internal/graph/op_apply.go:543-546 | there is exactly one such rectangle |
| Effects.UngroupEffect | internal/graph/op_apply.go:556-587 | with children kept exactly they move to the top; otherwise exactly they, the group and its own edges go |
| Effects.SetParentEffect | internal/graph/op_apply.go:645-662 | accepted if and only if the node exists and may go under the parent; exactly its parent changes |
| Effects.ParentCheckExactly | internal/graph/op_graph.go:50-83 | a node may go under nothing, or under another node that is a group with at most eight groups up to the top, none of them the node itself |
| Effects.SetViewportEffect | internal/graph/op_apply.go:589-596 | accepted if and only if the place is in range and the zoom between 0.05 and 5 |
| Effects.SetSettingsEffect | internal/graph/op_apply.go:598-643 | accepted if and only if there are only known settings with values of their kind; setting by setting the new value |
| Effects.BatchEffect | internal/graph/op.go:245-272 | a batch is accepted if and only if it has at most a thousand operations and each is accepted on the document the ones before it made, and the outcome is the last of these documents |
| Effects.IdsExactly | internal/graph/id.go:5-13 | an ID is 1 to 64 letters, digits and signs out of underscore, dot, colon and hyphen |
| Effects.TypesExactly | internal/graph/doc.go:29-38 | a node type starts with a small letter and goes on with small letters, digits and hyphens |
| Refusals.AddNodeRefused | internal/graph/op_apply.go:59-106 | which error a refused node gives when several things are wrong: ID, type, geometry, title, number of nodes, configuration, state and parent, in this order |
| Refusals.AddEdgeRefused | internal/graph/op_apply.go:415-490 | an edge is refused for its ID, the number of edges or a missing end, each with its error; every other reason, a cycle included, is one error |
| Refusals.SetSpecRefused | internal/graph/op_apply.go:226-282 | a configuration change is refused for a field it may not name, and else with the error of the verdict on the whole |
| Refusals.SetMetaRefused | internal/graph/op_apply.go:284-330 | a meta change is refused for its keys and values, and else for the number of entries |
| Refusals.SetParentRefused | internal/graph/op_apply.go:645-662 | a missing node or parent is not found; any other parent that will not do is invalid, and last the geometry |
| Refusals.GroupRefused | internal/graph/op_apply.go:501-554 | on a well-formed document the first listed node that will not do decides: not found if it is missing, else invalid |
| Refusals.BatchRefused | internal/graph/op.go:245-272 | the first operation that is refused decides for its batch |
| CycleCheck.WouldCycle | internal/graph/op_graph.go:21-47 | the search terminates and answers exactly whether `from` is reached from `to` by reverse edges and parent links, `from` and `to` being equal included |
| CycleCheck.RunCheckParent | internal/graph/op_graph.go:50-83 | the bounded walk up the parents equals the specified parent check, with its error codes |
| CycleCheck.SearchFindsExactlyCycles | internal/graph/op_graph.go:21-47 | on a well-formed document the search answers true exactly when the new edge would close a cycle of edges: parent links never change the answer |
| WellFormed.ReparentKeepsForest | internal/graph/op_graph.go:50-83 | passing the check, which looks at eight ancestors at most, is enough to keep the parent links acyclic at any depth |
| WellFormed.ReparentKeeps | internal/graph/op_apply.go:645-662 | an accepted reparenting keeps the whole document well formed |
| WellFormed.AddEdgeKeeps | internal/graph/op_apply.go:415-490 | an accepted edge keeps the document well formed: endpoints, port kinds, single inputs and acyclicity |
| WellFormed.RemoveNodeKeeps | internal/graph/op_apply.go:108-150 | removing a node leaves no dangling edge or parent |
| WellFormed.GroupKeeps | internal/graph/op_apply.go:501-554 | grouping keeps the document well formed whatever the members' own children and parents |
| WellFormed.OpKeepsWellFormed | internal/graph/op_apply.go:19-52 | every accepted operation except a child-deleting ungroup keeps all structural invariants |
| WellFormed.BatchKeepsWellFormed | internal/graph/op.go:245-272 | so does every accepted batch of them: edges join existing distinct non-group nodes through ports of their kind, single inputs hold one edge, parents are groups, edges and parents are acyclic, geometry and counts are in range |
| CycleFreedom.OpKeepsForest | internal/graph/op_apply.go:19-52 | every accepted operation of all fourteen kinds, child-deleting ungroup included, keeps the parent links acyclic, even where links dangle |
| CycleFreedom.OpKeepsFlow | internal/graph/op_apply.go:19-52 | and keeps the edges acyclic, even where edges have lost an end |
| CycleFreedom.BatchKeepsNoCycles | internal/graph/op.go:245-272 | no accepted list of operations, whatever it holds, creates a cycle of edges or of parents |
| Ungrouping.ChildDeletingUngroupExact | internal/graph/op_apply.go:556-587 | a child-deleting ungroup keeps the document well formed if and only if no edge touches a child and no surviving node has a child as parent |
| Ungrouping.ChildDeletingUngroupBreaks | internal/graph/op_apply.go:571-585 | a well-formed document on which it leaves an edge without its target |
| Undo.UndoOne | internal/graph/op_apply.go:59-662 | for each of the fourteen kinds: applying the recorded inverse of one accepted operation succeeds and restores the document exactly if and only if `Undoable` holds of the document before the operation |
| Undo.UndoRestores | internal/graph/op.go:245-272 | for an accepted batch of undoable operations the recorded inverses, last operation first, are all accepted and give back the very same document |
| Undo.UndoRemoveNode | internal/graph/op_apply.go:108-150 | re-adding a removed node, its children's parent links and its edges restores the document |
| Undo.UndoAddEdge | internal/graph/op_apply.go:415-499 | removing an added edge restores the document if and only if adding it replaced nothing |
| Undo.UndoSetFields | internal/graph/op_apply.go:226-282 | the recorded inverse of a configuration change restores it when the patch only overwrote existing fields |
| Undo.UndoUngroup | internal/graph/op_apply.go:556-587 | re-creating the parent links restores a dissolved group while its chain is within the depth cap |
| Regrouping.UndoGroup | internal/graph/op_apply.go:501-554 | the recorded list of a `group` restores the document if and only if each member came from this group already or is listed once under a chain within the depth cap, and a rectangle that was taken starts where the old one did |
| AgentUndo.AgentUndoSends | internal/agent/turn.go:194-211 | the agent's undo refuses an empty list of entries and one holding a list; otherwise it is the batch of the recorded operations in the order recorded |
| AgentUndo.ListInversesAreNeverUndone | internal/agent/turn.go:194-211 | the agent's undo always fails for a batch that removes a node, groups or ungroups: its recorded entry is a list |
| AgentUndo.OneOperationIsUndone | internal/agent/turn.go:194-211 | for a single other operation the agent's undo is exact if and only if the operation was undoable |
| AgentUndo.IndependentBatchIsUndoneExactly | internal/agent/turn.go:194-211 | for a batch of moves, resizes, titles, configurations and states no two of which change the same part of a node, the agent's list order gives the document back if and only if each operation was undoable where it was made |
| AgentUndo.GeometryBatchIsUndoneExactly | internal/agent/turn.go:194-211 | for any batch of moves and resizes it does if and only if, for every node, the position before its last move is its first one and the size before its last resize is its first one |
| AgentUndo.LinkedNodeIsNeverUndone | internal/agent/turn.go:194-211 | a batch that adds a node and later an edge at it, as the agent's prompt tool makes (internal/agent/service.go:650-664), is always refused: the node goes first and takes the edge along |
| AgentUndo.TwoMovesInListOrder | internal/agent/turn.go:194-211 | for two moves of one node the agent's undo stops at the first move's target, because it sends inverses in recorded order |
| Rebase.Rebaseable | internal/graph/service.go:182-277 | the two loops decide exactly whether no incoming operation touches what an in-flight one touched, and list the in-flight kinds |
| MergeRules.MergedExactly | internal/graph/service.go:182-277 | a stale batch is merged if and only if it holds no group, ungroup, viewport or settings operation, the in-flight ones no ungroup, viewport or settings operation, and no pair of them collides, pair by pair of kinds |
| MergeRules.RemovalMeetsNoChange | internal/graph/service.go:234-238 | a stale removal is merged over nothing that added, removed, moved, resized or configured the node |
| MergeRules.RemovalIsMergedOver | internal/graph/service.go:234-238 | it is merged over a title, a state, a parent link or an edge of the node |
| MergeRules.DisjointIsMerged | internal/graph/service.go:182-277 | batches that name no node and no edge in common are merged, unless a kind forbids it |
| Rebase.UnblockedKeepsChannel | internal/graph/service.go:228-276 | an operation that passes the check leaves every title, configuration, meta, state, result and error written in flight as it is, on nodes it does not remove |
| Rebase.RebaseLosesNoWrite | internal/graph/service.go:182-277 | so does a whole merged batch |
| Rebase.RebaseDiamond | internal/graph/service.go:182-277 | a merged batch and the in-flight one, both of moves, resizes, titles, configurations and states and not both moving or both resizing a node, are accepted in both orders or in neither, with the same document |
| Rebase.MergedGeometryCommutesExactly | internal/graph/service.go:238-245 | any two moves, and any two resizes, of one node are merged; both orders agree if and only if `GeometryAgrees` holds, for targets, offsets and kept ratios in every combination, rejected ones included |
| Store.MemoryStore.AppendOps | internal/graph/memory_store.go:100-135 | compare-and-set: on an equal version the document, the numbered records and the index entry are stored, otherwise nothing changes |
| Store.MemoryStore.CreateDocument | internal/graph/memory_store.go:56-68 | stores a new document with an empty log, or reports a conflict |
| Store.MemoryStore.DeleteDocument | internal/graph/memory_store.go:87-98 | drops document and log, and keeps the sequence counter and the version index |
| Store.MemoryStore.ListOps | internal/graph/memory_store.go:137-154 | the first records after a sequence number, up to the limit |
| Store.MemoryStore.ListOpsSinceVersion | internal/graph/memory_store.go:169-186 | the first records after the sequence number the index gives for a version |
| Store.AppendedLogOk | internal/graph/memory_store.go:100-135 | a commit keeps sequence numbers free of gaps, versions and index in step, and the version one higher |
| Store.CommitRecords | internal/graph/memory_store.go:100-135 | record by record a commit notes the operation, its author, version and time, and numbers on |
| Store.LimitMeans | internal/graph/memory_store.go:137-154 | a limit that is not positive stands for 200; fewer records than the limit means that all matching ones are listed |
| Store.IndexLookupIsVersionFilter | internal/graph/memory_store.go:169-186 | without deletion, the index lookup returns the same records in the same order and under the same limit as filtering the log by version |
| Store.LookupAfterRecreationExactly | internal/graph/memory_store.go:87-98 | on a canvas deleted at version m and created again the index lookup equals the version filter if and only if nothing was written since, or the version asked for is at most 0 or at least m |
| Store.StaleIndex | internal/graph/memory_store.go:87-98 | so any canvas with two versions, deleted, created again and written once, has a stale lookup |
| Replay.Replay | internal/graph/replay.go:14-25 | the loop applies the records one operation at a time, bumping the version for each |
| Replay.SameStep | internal/graph/op_apply.go:19-52 | an operation takes documents that differ only in edge authors, edge times and settings to such documents, or refuses both |
| Replay.ReplayReproduces | internal/graph/replay.go:14-25 | replaying accepted operations by another actor at another time gives the same nodes, viewport and settings, and the same edges but for author and time |
| Service.AppendOps | internal/graph/service.go:95-177 | one write start to end: anonymous and unknown-canvas refusals, the empty batch, version check, rebase, batch and commit, with the whole new store state |
| Service.OpenReplay | internal/graph/service.go:290-311 | the audit compares the stored document with its replay, version included |
| Service.ConsistentExactly | internal/graph/diff.go:10-60 | on any stored canvas, reachable or not, the audit says consistent if and only if the replay has the stored number of versions and the same viewport, settings, nodes up to the compared fields, and edges up to author and time |
| Protocol.StepKeepsInv | internal/graph/service.go:95-177 | reading, checking, committing and losing keep the joint invariant of store and instances |
| Protocol.EveryRunReplays | internal/graph/service.go:95-177 | in every interleaving of server instances the stored contents equal a one-at-a-time replay of the log and sequence numbers have no gap |
| Protocol.EveryRunStaysWellFormed | internal/graph/service.go:95-177 | in every interleaving without child-deleting ungroups every stored document is well formed |
| Protocol.EveryRunKeepsNoCycles | internal/graph/service.go:95-177 | in every interleaving, whatever is requested, no stored document has a cycle of edges or of parents |
| Protocol.StepVersion | internal/graph/memory_store.go:100-135 | a step moves the version by one exactly when it commits, and never rewrites the log |
| Protocol.CommitWasCheckedAgainstTheLog | internal/graph/service.go:138-151 | what a committed batch was checked against is exactly the first records after its base version in the log it joins, however the others interleaved |
| Protocol.CommitLosesNoWrite | internal/graph/service.go:138-151 | in every interleaving a commit preserves each channel an inspected in-flight operation wrote, on nodes the batch does not remove |
| Protocol.CommitRemovesNothingChanged | internal/graph/service.go:138-151 | in every interleaving a commit takes out no node that an inspected in-flight operation added, removed, moved, resized or configured |
| Protocol.InspectsAllExactly | internal/graph/service.go:138-142 | a rebase inspects all in-flight records if and only if there are at most sixteen more of them than missing versions |
| Protocol.SeesFirstSeventeen | internal/graph/service.go:138-142 | after one committed batch, of any length, a rebase from the version before it sees exactly the first seventeen operations of the batch |
| Protocol.UnseenTitleIsOverwritten | internal/graph/service.go:138-142 | from every reachable state with two idle instances and a node there is a run of six steps that commits seventeen moves and a title of the node, and then a stale title that is merged and replaces it, although the whole log would have blocked it |
| Protocol.VersionCountsOpsExactly | internal/graph/replay.go:14-25 | the version equals the number of logged operations if and only if every batch held one |
| Protocol.AuditVerdict | internal/graph/service.go:290-311 | on every reachable canvas the audit says consistent if and only if every batch held one operation, although the contents always agree |
| Plans.Collector.Collect | internal/exec/compiler.go:53-85 | the depth-first step: it terminates, appends the node after everything it needs, follows everything it visits, and stops only for a stated reason at a node below it |
| Plans.CollectTargets | internal/exec/compiler.go:53-95 | collection succeeds if and only if all targets exist, every needed node has a step and there are at most 500; the list then holds exactly the needed executable nodes, once each, after all their sources |
| Plans.PlannableExactly | internal/exec/compiler.go:53-165 | there is a plan if and only if the targets exist, at most 500 nodes are needed and every needed generation spells a known capability with a credential for it, its provider and credential name |
| Plans.NeededIsLeast | internal/exec/compiler.go:53-85 | the needed nodes lie in every set that holds the targets, the children of its groups and the sources of its steps |
| Plans.ReachedFollows | internal/exec/compiler.go:53-85 | and are the generation and run nodes of one such set |
| Plans.StepsCarryTheirNode | internal/exec/compiler.go:124-165 | each step carries the capability, model, provider and credential of its own node, trimmed and known where it is a capability, and a credential exists for them; a run node becomes a fetch |
| StepOrder.CountArcs | internal/exec/compiler.go:265-284 | followers and in-degrees count every mention of an in-plan dependency |
| StepOrder.Release | internal/exec/compiler.go:303-310 | counting down a sorted step's followers queues exactly those that nothing holds back any more |
| StepOrder.KahnOrder | internal/exec/compiler.go:291-311 | what the main loop leaves: an order closed under dependencies, and leftovers that all wait for each other |
| StepOrder.TopoSort | internal/exec/compiler.go:265-324 | succeeds if and only if step IDs are distinct and in-plan dependencies acyclic; the result is a permutation by ID with every dependency before its dependent, in ID order when nothing depends on anything |
| Compiling.Compile | internal/exec/compiler.go:43-122 | succeeds if and only if there are targets, a collection is possible, some node is needed and every node feeding a needed one can be read; the plan holds exactly the needed nodes, in ID order, with their inputs; a refusal for an input comes from the first step of the plan that has one |
| Compiling.CompiledSourcesHaveRun | internal/exec/compiler.go:244-250 | a run is compiled only when every needed node that feeds another needed node already has a result |
| Inputs.ResolveInputs | internal/exec/compiler.go:167-200 | reads the sources of a step edge by edge in port order, numbering them per kind; the first that cannot be read decides the error |
| Inputs.InputsExactly | internal/exec/compiler.go:167-262 | the inputs of a step are found if and only if each node with an edge into it is a prompt with a text, a resource with an asset, or a step that has a result |
| Inputs.ReadingCarries | internal/exec/compiler.go:203-262 | what is read: a prompt's text, a resource's own asset or else that of its first variant, a step's first variant with its asset or else its text |
| Inputs.InputsInOrder | internal/exec/compiler.go:183-200 | input by input what is read off the source of the edge in the same place |
| Inputs.RefusedByType | internal/exec/compiler.go:203-262 | why a node cannot be read, by its type |
| Inputs.SortedByPort | internal/exec/compiler.go:170-181 | of two sorted edges the first enters a port of lower order, or one of the same order and has the lower ID; the order of a port is that of the last one of its ID, or 0 |
| Inputs.OwnWords | internal/provider/compose.go:42-56 | five kinds have a word of their own |
| Inputs.ByPortIsSorted | internal/exec/compiler.go:170-181 | the sorted edges are the same edges, by port order and by ID within a port |
| Inputs.LabelsCollideExactly | internal/exec/compiler.go:183-197 | two inputs of one step carry the same label if and only if they are of different kinds that share a word and count the same among their kinds |
| Compiling.FinishedPlanIsOrderedExactly | internal/exec/compiler.go:101-110 | a finished plan is in dependency order if and only if every edge between needed executable nodes goes up in ID order |
| LatePlan.FinishedPlanCanBeOutOfOrder | internal/exec/compiler.go:101-110 | two generation nodes, the upstream one with a result: the canvas is well formed for declared schemas, compiling accepts it, and every plan it returns puts a step before the step that feeds it, so that a run can report success with that step skipped |
| LatePlan.CompileLateSource | internal/exec/compiler.go:43-122 | compiling that canvas returns the steps in the order a, b, although b feeds a |
| Execution.TriesAreBounded | internal/exec/retry.go:30-62 | a step makes at most the allowed attempts, only the last can succeed, and each earlier one failed with a retryable error |
| RetryRules.TriedExactly | internal/exec/retry.go:30-62 | a step is called again if and only if the call was refused as transient or rate limited with attempts left, a pause to wait and no cancellation; the first other call is the last and decides how the step ends |
| RetryRules.RetriesAreTold | internal/exec/engine.go:307-345 | a notice follows each call that is tried again, and the last one if the run was canceled in its pause; success is told once, at the end |
| RetryRules.FailuresAreTold | internal/exec/engine.go:198-226 | a step that fails keeps its attempts, shows why and tells it last; a skipped one has no events |
| RetryRules.FirstErrorIsShown | internal/exec/engine.go:246-254 | the error of a run is that of the first failed step that has one |
| RetryRules.RetriedByClass | internal/exec/retry.go:47-61 | attempt by attempt: one that is not the last failed as transient or rate limited, and a last one that did had no attempt, no pause or no leave left, or was followed by an answer that could not be stored |
| RetryRules.NoCallsWithout | internal/exec/engine.go:284-305 | a step is told to start first; without a channel, and then without inputs, no call is made and the step ends with that error |
| Execution.DependsOn | internal/exec/engine.go:496-508 | the executable nodes feeding a node, one per edge, in edge order |
| Execution.Dependencies | internal/exec/engine.go:179-188 | a step waits for its declared dependencies and for the planned steps of the executable nodes feeding its node |
| Execution.CheckDependencies | internal/exec/engine.go:264-283 | answers whether every dependency that is a step of the run has succeeded |
| Execution.Run.TryAll | internal/exec/engine.go:307-396 | the attempt loop records the attempts and events of the specified tries, whatever the provider answers |
| Execution.Run.RunStep | internal/exec/engine.go:285-398 | channel, inputs, then attempts; status, attempts, events and outcome are those specified |
| Execution.Run.MarkCanceled | internal/exec/engine.go:444-457 | everything not succeeded or failed becomes canceled |
| Execution.Run.RecomputeUsage | internal/exec/plan.go:153-162 | the run's usage is the sum over all attempts of all steps |
| Execution.Run.Summarize | internal/exec/engine.go:232-256 | verdict and primary error from the step statuses |
| Execution.Run.Execute | internal/exec/engine.go:145-262 | final steps, status, error, usage and events of a whole run, uncancelled, cancelled before the start, or cancelled at the first step where it is noticed |
| Reports.StepReport | internal/exec/engine.go:198-230 | in any plan order a step is skipped if and only if some step it waits for has its turn later or did not succeed; otherwise it succeeds or fails as its attempts do |
| Reports.SkippedExactly | internal/exec/engine.go:198-230 | in a plan in dependency order a step is skipped if and only if some ancestor failed |
| Reports.VerdictMeans | internal/exec/engine.go:232-247 | in such a plan every step ends terminal, the run is succeeded iff all steps are, failed iff none is, and otherwise partial |
| Reports.StartedAfterSources | internal/exec/engine.go:198-230 | in the event stream, whatever the plan order and whether or not the run is canceled, a step is started only after every step of the run it waits for reported success |
| Reports.CanceledEventsComeFirst | internal/exec/engine.go:198-215 | the events of a canceled run are the first ones of the run it would have been |
| Reports.SuccessIsHonestExactly | internal/exec/engine.go:232-247 | a run reported as succeeded means all steps succeeded, whatever the world does, if and only if the plan is in dependency order |
| Reports.WaitsAreEdges | internal/exec/engine.go:179-188 | in a run of compiled steps, a step waits for exactly the steps of the nodes that feed its node |
| Reports.CompiledSuccessIsHonestExactly | internal/exec/compiler.go:101-110 | for a compiled plan that is the case if and only if every edge between needed nodes goes up in ID order |
| Reports.CanceledRunIsSettled | internal/exec/engine.go:444-457 | a canceled run keeps what succeeded or failed, and cancels everything else, skipped steps included |
| Reports.CostIsExactSum | internal/exec/plan.go:153-162 | a run costs exactly the sum of its attempts |
| Reports.AttemptsArePriced | internal/exec/engine.go:355-361 | only the attempt that succeeded is charged: the quantities reported, at the price of the step's channel |
| Metering.PricingDrift | internal/exec/usage.go:28-47 | pricing the summed usage of k attempts exceeds the sum of the k prices by at least 0 and at most 4(k-1) micros |
| Metering.DriftIsReached | internal/exec/usage.go:28-47 | and really by 4(k-1), for every k up to a thousand |
| Metering.EachQuantityHasItsPrice | internal/exec/usage.go:28-47 | input text, output text, images, video and audio are each charged at their own price and unit |
| Metering.CostSplits | internal/exec/usage.go:28-47 | the cost of a usage is that of its five quantities one by one |
| Submissions.RunStore.SaveRun | internal/exec/memstore.go:25-40 | saves a run and its index entry, or reports a duplicate key and changes nothing |
| Submissions.RunStore.FindByIdempotencyKey | internal/exec/memstore.go:54-62 | the run the composed key leads to |
| Submissions.Create | internal/exec/engine.go:96-129 | find, save, find again: whatever others save in between, the call ends with the run its key leads to, and a run found at once is untouched |
| Submissions.OneRunPerKey | internal/exec/engine.go:96-129 | in every interleaving two answered submissions get the same run if and only if their composed keys are equal, and it is the only run stored under that key |
| Submissions.EachRunIsListedOnce | internal/exec/memstore.go:25-40 | in every interleaving the list of runs names each stored run once |
| Submissions.AnsweredInFourSteps | internal/exec/engine.go:96-129 | every submission ends within four steps of its own, whatever the others do, and is refused only without a workspace |
| Submissions.SameEntryExactly | internal/exec/memstore.go:29 | two submissions share an entry if and only if they are equal, or one workspace ID followed by a bar begins the other and the keys make up for the rest |
| Submissions.WorkspacesShareExactly | internal/exec/memstore.go:29 | two different workspaces share an entry for some keys if and only if one of them followed by a bar is a prefix of the other |
| Submissions.EntriesAreApart | internal/exec/memstore.go:29 | so workspaces without a bar never share an entry |
| Scripts.ParseScript | internal/sandbox/parser.go:15-29 | a parsed script has fewer than two tree nodes for each token |
| Parsing.Parser.ParseTernary | internal/sandbox/parser.go:198-221 | conditionals and the nesting count: the tree, the error, the tokens left and the depth are those of the grammar function |
| Parsing.Parser.ParseBinary | internal/sandbox/parser.go:240-261 | the precedence-climbing loop: the tree, the error, the tokens left and the depth are those of the grammar function |
| Parsing.Parser.ParseUnary | internal/sandbox/parser.go:277-296 | prefix operators: the tree, the error, the tokens left and the depth are those of the grammar function |
| Parsing.Parser.ParsePostfix | internal/sandbox/parser.go:298-325 | member and index access: the tree, the error, the tokens left and the depth are those of the grammar function |
| Parsing.Parser.ParsePrimary | internal/sandbox/parser.go:327-374 | literals, parentheses, arrays, objects, names and calls: the tree, the error, the tokens left and the depth are those of the grammar function |
| Parsing.Parser.ParseItems | internal/sandbox/parser.go:376-432 | arguments and array items with an optional trailing comma: the tree, the error, the tokens left and the depth are those of the grammar function |
| Parsing.Parser.ParseProps | internal/sandbox/parser.go:434-481 | object properties, with prototype keys refused: the tree, the error, the tokens left and the depth are those of the grammar function |
| Parsing.Parser.ParseStatements | internal/sandbox/parser.go:55-83 | statements up to the end or a brace, semicolons skipped: the tree, the error, the tokens left and the depth are those of the grammar function |
| Parsing.Parser.ParseStatement | internal/sandbox/parser.go:85-125 | the choice between statement forms: the tree, the error, the tokens left and the depth are those of the grammar function |
| Parsing.Parser.ParseIf | internal/sandbox/parser.go:146-192 | if, else and else-if: the tree, the error, the tokens left and the depth are those of the grammar function |
| Parsing.Parse | internal/sandbox/parser.go:15-29 | parsing a whole script agrees with the grammar, and its tree has fewer than two nodes per token |
| GrammarRules.LowerLevelIsOutermost | internal/sandbox/parser.go:226-261 | x p y q z: the operator of the lower documented level is at the top, for all fifteen operators by their spelling, and of one level the right one |
| GrammarRules.PrototypeKeysAreRefused | internal/sandbox/parser.go:434-462 | an object key that is one of the fifteen prototype words is refused, whatever follows |
| GrammarRules.OnlyPrototypeKeysAreRefused | internal/sandbox/parser.go:434-462 | and no other word is |
| GrammarRules.ReadingSpells | internal/sandbox/parser.go:34-43 | the words the grammar compares tokens with are their characters: reading and spelling a word are inverse |
| GrammarRules.PrefixOperator | internal/sandbox/parser.go:277-296 | not, minus, plus and typeof in front of a name |
| GrammarRules.Literals | internal/sandbox/parser.go:327-345 | a literal is the number or text of its token, or true, false, null or undefined |
| GrammarRules.NoExpression | internal/sandbox/parser.go:327-374 | the end of the text, or a sign no expression starts with, is a syntax error |
| GrammarRules.SyntaxErrors | internal/sandbox/parser.go:36-132 | a declaration without a name, a dot without a property and a block without an end are syntax errors |
| GrammarRules.OnlySignsAreOperators | internal/sandbox/parser.go:263-283 | a string literal spelled as an operator is neither a binary nor a prefix one |
| GrammarRules.Conditional | internal/sandbox/parser.go:198-223 | x ? y : z has condition x and the branch y for a true one |
| GrammarRules.ItemsAndCalls | internal/sandbox/parser.go:298-404 | x[y] is the item of x at y, f(x, y) the call of f with x first |
| GrammarRules.TrailingComma | internal/sandbox/parser.go:376-432 | a comma before the closing word of a list changes nothing |
| GrammarRules.DeclarationIsAssignment | internal/sandbox/parser.go:85-144 | a declaration is an assignment |
| GrammarRules.BareReturnIsNull | internal/sandbox/parser.go:97-106 | a return without a value returns null |
| GrammarRules.ElseIfIsElse | internal/sandbox/parser.go:168-190 | an else-if is an else whose block holds that if alone |
| RoundTrip.BinaryBack | internal/sandbox/parser.go:240-261 | a tree printed at a precedence level is what the operator loop holds when it reaches the following token |
| RoundTrip.PrintedParsesBack | internal/sandbox/parser.go:198-374 | a printable tree, printed with parentheses only where precedence needs them, parses back to itself if and only if it nests at most 32 deep, and otherwise hits the limit: never a syntax error |
| Reprinting.TernaryTight | internal/sandbox/parser.go:198-221 | whatever parses is printable, and prints with no more nesting than its source had |
| Reprinting.ReprintedParsesBack | internal/sandbox/parser.go:198-374 | so printing any parsed expression and parsing it again always gives the same tree |
| ScriptPrinting.BlockBack | internal/sandbox/parser.go:55-83 | printed statements, at the top or between braces, parse back to themselves or hit the nesting limit |
| ScriptPrinting.PrintedScriptParsesBack | internal/sandbox/parser.go:15-192 | a printable script, printed, parses back to itself if and only if none of its expressions nests more than 32 deep; otherwise the limit, never a syntax error |
| ScriptPrinting.StringsCanBeSwallowed | internal/sandbox/parser.go:66-74 | where a statement may start, a string literal holding a semicolon or brace is taken for one |
| Interpreting.Interpreter.Tick | internal/sandbox/eval.go:25-30 | one step off the budget, or the step limit |
| Interpreting.Interpreter.Eval | internal/sandbox/eval.go:110-113 | value, error, variables, budget and notes are those of the evaluation function |
| Interpreting.Interpreter.EvalNode | internal/sandbox/eval.go:114-170 | the same for each kind of node |
| Interpreting.Interpreter.EvalBinary | internal/sandbox/eval.go:267-310 | short-circuit operators leave the right side alone |
| Interpreting.Interpreter.EvalCall | internal/sandbox/hostfuncs.go:48-64 | unknown functions and too many arguments are refused before any argument is evaluated |
| Interpreting.Interpreter.EvalHost | internal/sandbox/hostfuncs.go:73-308 | each host function evaluates the arguments it needs in its own order |
| Interpreting.Interpreter.HostJoin | internal/sandbox/hostfuncs.go:107-122 | the separator is evaluated before the items |
| Interpreting.Interpreter.HostSlice | internal/sandbox/hostfuncs.go:148-184 | the end is evaluated only for strings and arrays |
| Interpreting.Interpreter.ExecStmt | internal/sandbox/eval.go:66-108 | assignment, branching, return and expression statements |
| Interpreting.Interpreter.ExecBlock | internal/sandbox/eval.go:46-58 | statements in order, one step each, until one returns |
| Interpreting.Interpreter.Run | internal/sandbox/eval.go:46-64 | the returned value, else the variable `out`, else an error |
| ScriptSafety.EvalSound | internal/sandbox/eval.go:110-170 | evaluating a tree takes at most one step per node, meets the step limit only if the budget did not exceed that, and refuses only calls it names |
| ScriptSafety.ScriptIsSound | internal/sandbox/eval.go:46-64 | the same for a whole script |
| ScriptSafety.KnownCallsAreAnswered | internal/sandbox/hostfuncs.go:48-61 | a script whose calls are all host functions never fails on an unknown function |
| ScriptSafety.StepsFollowTokens | internal/sandbox/eval.go:25-64 | a script of t tokens spends fewer than 2t steps, so a budget of 2t never meets the step limit |
| Branching.ConditionChooses | internal/sandbox/eval.go:137-145 | a conditional is its first branch unless the condition is null, false, 0 or the empty string, and then the second |
| Branching.IfChooses | internal/sandbox/eval.go:75-97 | an if runs its first block unless the condition is one of these four, and then the second, and goes on unless it returned |
| Branching.ShortCircuits | internal/sandbox/eval.go:267-299 | and, or and coalesce give their left side without evaluating the right one, or else exactly their right side |
| Branching.OthersTakeBothSides | internal/sandbox/eval.go:301-310 | every other operator has both sides evaluated, the left one first |
| Branching.NamesMean | internal/sandbox/eval.go:117-125 | a name means what the script assigned last, and otherwise what it was given |
| Branching.AssignmentHolds | internal/sandbox/eval.go:68-74 | after an assignment the name holds the value |
| Branching.ReturnEnds | internal/sandbox/eval.go:98-108 | a return ends the block, an expression statement does not |
| Branching.ScriptResult | internal/sandbox/eval.go:46-64 | a script gives what it returns, or else the last value of `out`, or an error |
| Branching.LastStepIsTheLimit | internal/sandbox/eval.go:25-30 | with one step left nothing is evaluated |
| Branching.StraightCost | internal/sandbox/eval.go:110-113 | an expression without branch, short circuit or call costs exactly one step per node |
| Branching.CallsReach | internal/sandbox/hostfuncs.go:48-64 | exactly the thirteen names reach their host function, with at most eight arguments |
| Branching.DefaultChooses | internal/sandbox/hostfuncs.go:243-252 | default() evaluates its second argument only if the first is null or the empty string |
| Branching.JoinOrder | internal/sandbox/hostfuncs.go:107-122 | join() evaluates the separator before the list |
| Branching.SliceOrder | internal/sandbox/hostfuncs.go:148-184 | slice() evaluates its end only for texts and lists, and takes null for the start or the end |
| Branching.ReplaceOrder | internal/sandbox/hostfuncs.go:223-241 | replace() goes from left to right |
| Branching.NotesAreKept | internal/sandbox/hostfuncs.go:277-292 | toast() and log() add to the notes and give null |
| Branching.LiteralsMean | internal/sandbox/eval.go:114-117 | a number, a text, true, false and null mean themselves |
| Branching.PartsAreHandedOn | internal/sandbox/eval.go:126-136 | member, index and unary expressions hand their parts on in order |
| Branching.ListsKeepOrder | internal/sandbox/eval.go:148-157 | a list holds the values of its items in their order, evaluated first to last |
| Branching.LastPropertyWins | internal/sandbox/eval.go:158-167 | an object holds for each key the value of its last property of that name |
| Branching.HasOrder | internal/sandbox/hostfuncs.go:254-275 | has() goes from left to right |
| Branching.OneArgument | internal/sandbox/hostfuncs.go:73-105 | string, number, len, trim, upper and lower are computed from their one argument |
| Noninterference.OnlyFreeVariablesMatter | internal/sandbox/ast.go:97-162 | value, notes, remaining budget and error are the same in any two environments that agree on the free variables |
| Noninterference.EnoughIsEnough | internal/sandbox/eval.go:25-30 | a budget that was enough can be raised at will: only the steps left over change |
| Analysis.IdentCollector.WalkExpr | internal/sandbox/ast.go:106-138 | the collector adds the names of a tree, each once, in the order first met |
| Analysis.IdentCollector.WalkBlock | internal/sandbox/ast.go:139-160 | the same for statements |
| Analysis.CallCollector.WalkBlock | internal/sandbox/interp.go:84-137 | the collector adds exactly the functions called |
| Analysis.Analyze | internal/sandbox/interp.go:77-149 | the report lists the variables, the sorted calls and the calls no host function answers |
| Analysis.AnalysisPredicts | internal/sandbox/interp.go:77-149 | for tokens as a lexer delivers them, environments agreeing on the listed variables give the same outcome, and an empty unknown list rules out the unknown-function error |
| ReadingOrder.ReportReadsTheText | internal/sandbox/interp.go:77-149 | against the printed text of any script: the variables listed are those the text mentions, each once, in the order first mentioned; the calls are the names in front of a parenthesis, sorted, and the unknown ones those no host function has |
| ReadingOrder.ExpressionAsWritten | internal/sandbox/ast.go:106-138 | printed, an expression mentions its variables in the order the collector meets them and calls the functions it names |

## Left out

- JSON decoding and encoding, strict-field checks and number normalisation: an operation is a datatype value.
- Floating point: coordinates, sizes, zoom and script numbers are reals, so NaN, infinities and rounding do not occur.
- Machine integers: versions, sequence numbers, usage and costs are unbounded.
- Unicode: a string is a sequence of characters standing for bytes; white space is trimmed for the ASCII set.
- Maps and slices that Go shares or copies are values, so aliasing inside a specification or meta map is not modelled.
- Undo.UndoRemoveNode: assumes a complete configuration, as the re-added node is validated.
- WellFormed.BatchKeepsWellFormed: excludes the child-deleting ungroup, which has its own exact condition; `CycleFreedom` excludes nothing.
- AgentUndo.IndependentBatchIsUndoneExactly: speaks of operations that change one node each; of structural batches only those with a list entry and those that link an added node are decided.
- Rebase.RebaseDiamond: speaks of moves, resizes, titles, configurations and states; structural operations are not reordered.
- Protocol.EveryRunReplays: edge authors and time stamps are not compared, since replay stamps its own.
- Service.AppendOps: runs with nothing between its reads and its commit; `Protocol` covers the interleavings. Event publication is left out.
- Store.MemoryStore.AppendOps: the SQL store, its transactions and its version filter are represented by the same compare-and-set.
- Renaming a canvas and listing canvases touch no document and are left out.
- Inputs.ResolveInputs: a label is a word and a number, not a text; prompt templates are not carried.
- Plans.CollectTargets: parameters, counts and prompts of a step are not carried.
- Execution.Run.Execute: store failures, assets, text outputs, write-back to the canvas and its events are left out; pauses are a length, and jitter is part of it. A plan names each node and step once, as every plan the server builds does.
- Execution.Run.TryAll: what a successful attempt produces, its text, its assets and its write-back, is left out.
- Execution.Run.RunStep: asset loading and storing are reduced to their errors.
- Resuming runs, replaying a run and the worker pool are left out.
- Submissions.Create: a run is reduced to its ID, workspace, key and a revision; new IDs never repeat.
- The lexer is left out: `Syntax.Lexed` and `Reprinting.WellWritten` say what it delivers.
- Reprinting.ReprintedParsesBack: speaks of expressions; an expression statement led by a string literal is printed in parentheses, which can nest deeper than its source.
- Interpreting.Interpreter.Tick: the wall-clock check every 256 steps and context cancellation are left out.
- Interpreting.Interpreter.EvalHost: values, conversions, string limits and the results of host functions are the parameter `Values`.
- Interpreting.Interpreter.Run: the final check that the result is an object of limited size is left out.
- Analysis.Analyze: the list of statically forbidden uses is left out; it fails on argument-less `has()`, `join()` and `replace()`.
- Providers, transport, storage of assets, HTTP, identity, plugins, prompts and the web front end are plumbing around these parts.
