# Blender Workflows add-on — a verified model of its node-graph core

The Workflows add-on for Blender lets a user build a node graph that gathers objects from the
scene and then filters, renames, joins and exports them. This project models the parts of the
add-on that are its own logic rather than calls into Blender:

- the pull evaluator: a node asks its upstream nodes for their objects;
- the edits to the graph: group-socket synchronisation, grouping selected nodes into a group node,
  entering and leaving groups, link-type checks with repair through reroute nodes, and the
  operators that add and remove object sockets;
- the "run all workflows" control flow and its undo bracket;
- the object-list operations of the nodes: name filters, set combine and remove, prefix and suffix
  renaming, the modifier-id stores, the input nodes' caches and layer-collection revealing, mesh
  joining, UV-map activation, and the export selection prelude;
- the utilities: the module dependency walk and reload order, the layer-collection search, and
  the export argument logic.

Blender objects are plain records (`Host.HostObject`): a name, an optional data block with UV
layers, a type, modifiers and children. The state the nodes change in place (objects, selection,
active object, excluded layer collections, console) is the class `Host.Scene`. A node tree is the
class `Graph.NodeTree`: a sequence of nodes and a sequence of links. A link names its end nodes by
node name and its end sockets by socket identifier.

Modules follow the source files:

| module | source file |
|---|---|
| `Mixins` | nodes/mixins.py |
| `Group` | nodes/group.py |
| `Workflows` | node_trees/workflows.py |
| `Utils` | utils.py |
| `Filters` | nodes/filters.py |
| `Grouping` | nodes/grouping.py |
| `Misc` | nodes/misc.py |
| `Transforms` | nodes/transforms.py |
| `Inputs` | nodes/inputs.py |
| `Geometry` | nodes/geometry.py |
| `Uv` | nodes/uv.py |
| `Export` | nodes/export.py |
| `ObjectsSocket` | sockets/objects_socket.py |

`Wrappers` (Option, Result, Python exceptions), `Seqs` (list helpers), `Strings` (Python string
operations), `Host` (scene data) and `Graph` (sockets, links, nodes) are shared by all of them.

Several node files call helpers that are not part of this model: `get_input_socket_data`,
`set_output_socket_data`, `get_all_input_socket_data`, and the base classes `WFTransformNode`,
`WFFunctionNode`, `WFInFlowNode` and `WFRunNode`. The data these helpers return is a parameter
of the modelled operation (the object list `obs`, the filter string, the name). Membership in
those base classes is a class name in `Graph.Node.classes`.

## Model

| member | source | states |
|---|---|---|
| `Mixins.UpstreamRanked` | nodes/mixins.py:26-28 | the node at the far end of an input's first link ranks strictly lower, so the recursion into it terminates on an acyclic graph |
| `Mixins.Execute` | nodes/mixins.py:32-44 | the loop over the inputs computes `Pulled`: upstream results in socket order, an object skipped when an earlier input already supplied it |
| `Mixins.PulledInputsStep` | nodes/mixins.py:32-44 | one more input appends the upstream objects not collected yet when the socket is linked and nothing otherwise |
| `Mixins.GetInputData` | nodes/mixins.py:20-30 | the loop over the inputs computes `InputData`: upstream results concatenated in socket order |
| `Mixins.InputDataInputsStep` | nodes/mixins.py:20-30 | one more input adds the upstream result whole when the socket is linked and nothing otherwise |
| `Mixins.PulledNoDups` | nodes/mixins.py:40-42 | when every given source list is duplicate-free, every `execute()` result is duplicate-free |
| `Mixins.PulledInputsNoDups` | nodes/mixins.py:35-42 | the same for the results gathered from the first k inputs |
| `Mixins.Feeders` | nodes/mixins.py:23-27 | the upstream nodes of the first k inputs: at most one per input |
| `Mixins.FeedersRanked` | nodes/mixins.py:23-28 | every upstream node ranks below the node it feeds |
| `Mixins.PulledInputsAreFeederResults` | nodes/mixins.py:35-40 | the lists `execute()` combines are exactly the upstream nodes' own `execute()` results, one per linked input |
| `Mixins.FeedersMember` | nodes/mixins.py:23-27 | a node feeds exactly when it is the from-node of the first link of some linked input; unlinked inputs contribute nothing |
| `Mixins.PulledMember` | nodes/mixins.py:35-44 | an object is in `execute()` exactly when it is in some upstream result |
| `Mixins.PulledKeepsSocketOrder` | nodes/mixins.py:35-42 | the objects gathered from the first k inputs come first in `execute()`, in order, and no later object occurs among them |
| `Mixins.PulledInputsPrefix` | nodes/mixins.py:35-42 | the lists gathered for the first k inputs are a prefix of those for all inputs |
| `Mixins.UnlinkedNodeYieldsNothing` | nodes/mixins.py:23-29 | a node with no linked input yields `[]` from both entry points |
| `Mixins.NoLinkedInputs` | nodes/mixins.py:35-39 | with no linked input among the first k, nothing is gathered from them |
| `Mixins.SameObjects` | nodes/mixins.py:20-44 | `execute()` and `get_input_data()` reach the same set of objects |
| `Mixins.SameObjectsInputs` | nodes/mixins.py:20-44 | the same, input by input |
| `Mixins.InputDataKeepsDuplicates` | nodes/mixins.py:20-30 | `get_input_data()` is as long as all upstream results together: no object is dropped |
| `Mixins.NodeInit` | nodes/mixins.py:14-15 | `init` sets `use_custom_color` and changes nothing else |
| `Mixins.ActionNodeInit` | nodes/mixins.py:49-52 | exactly one "in" objects input and one "out" objects output are appended |
| `Mixins.FilterNodeInit` | nodes/mixins.py:60-62 | the action node's sockets, then the filter colour |
| `Mixins.IoNodeInit` | nodes/mixins.py:66-68 | input nodes, and output nodes at lines 83-85, get `use_custom_color`, the IO colour and no sockets |
| `Mixins.ExportNodeInit` | nodes/mixins.py:98-100 | the IO colour and one "in" objects input |
| `Mixins.FilepathUpdate` | nodes/mixins.py:74-78 | the IO colour when a file path is set, the error colour when it is empty |
| `Group.Remove` | nodes/group.py:41 | removing socket k drops exactly that socket and keeps the others in order |
| `Group.Move` | nodes/group.py:21 | moving a socket puts it at the target index and keeps the others in order |
| `Group.AppendThenMove` | nodes/group.py:20-21 | appending a socket and moving it from the end to k inserts it at k |
| `Group.ReplaceInPlace` | nodes/group.py:41-43 | remove, re-create and move back replaces a socket at the same position |
| `Group.MoveKeepsElements` | nodes/group.py:35 | a move keeps the same sockets |
| `Group.IdsOfMove` | nodes/group.py:35 | a move permutes the identifiers the same way |
| `Group.IdsOfSplice` | nodes/group.py:20-21 | the identifiers of a spliced list are the spliced identifiers |
| `Group.FirstMismatch` | nodes/group.py:14-17 | the first index below n where the identifiers differ, and none before it |
| `Group.FirstMissing` | nodes/group.py:52-57 | the first index below n whose identifier the interface lacks, and none before it |
| `Group.SyncEqual` | nodes/group.py:24-47 | the equal-length pass keeps the socket count |
| `Group.UpdateSockets` | nodes/group.py:7-57 | corrected (see ## Findings): the three branches with their loops compute `UpdatedSockets`, the intended update; the code as written is `UpdatedSocketsAsWritten` |
| `Group.FirstMismatchFrom` | nodes/group.py:14-17 | once the first k identifiers agree, the search may start at k |
| `Group.FirstMissingFrom` | nodes/group.py:52-57 | the same for the search for a removed identifier |
| `Group.PlaceholderIgnored` | nodes/group.py:8 | the IO node's last socket never affects the update |
| `Group.AddsOneCopy` | nodes/group.py:11-21 | with fewer group sockets exactly one socket is added, a copy of an interface socket |
| `Group.AddInsertsAtFirstMismatch` | nodes/group.py:13-21 | the added socket goes where the identifiers first disagree |
| `Group.AddRestoresInterface` | nodes/group.py:11-21 | a group missing one interface socket gets back exactly the interface |
| `Group.SameCountKeepsIds` | nodes/group.py:24-36 | with equal lengths the identifiers stay the same, possibly reordered |
| `Group.RenamesInPlace` | nodes/group.py:24-47 | with equal identifiers and types the update only renames, in place |
| `Group.RecreatesRetypedSocket` | nodes/group.py:39-44 | the first socket of another type is re-created with the new type, same identifier and name, at the same index |
| `Group.RemovesAtMostOne` | nodes/group.py:50-57 | with more group sockets at most one is removed, and only one whose identifier the interface lacks |
| `Group.RemoveRestoresInterface` | nodes/group.py:50-57 | a group with one extra socket gets back exactly the interface |
| `Group.CopiedInto` | nodes/group.py:20 | the copy keeps the socket's type and name and gets an identifier no socket on that side has; the requested identifier when it is free |
| `Group.AppendedSocketLandsFirst` | nodes/group.py:13-21 | as written, a socket appended to the interface lands first on the group node |
| `Group.InsertedSocketMissed` | nodes/group.py:13-21 | as written, a socket inserted at the group's last position is missed: with group [A, C] and interface [A, B, C] the interface's last socket C is copied to the front under the identifier the host makes unique, C_001, giving [C_001, A, C], and B is never added; the corrected update gives [A, B, C] |
| `Group.RemovedLastSocketStays` | nodes/group.py:52-57 | as written, removing the last interface socket never removes it from the group node |
| `Group.GroupSyncedChangesOnlySockets` | nodes/group.py:74-82 | `update` changes only the group node's inputs and outputs |
| `Group.GroupSyncedWithoutIoNodes` | nodes/group.py:78-82 | a tree without group input and output nodes leaves the group node unchanged |
| `Group.UpdateGroupNode` | nodes/group.py:74-82 | corrected (see ## Findings): no tree: nothing changes; otherwise the inner nodes drive the group node's sockets in order, each step being the corrected `UpdatedSockets` |
| `Group.SelectForGrouping` | nodes/group.py:106-113 | group input and output nodes are deselected; the selected nodes are the others that are selected, in tree order |
| `Group.FromOutsideSnoc` | nodes/group.py:124-126 | one more candidate link is recorded when it comes from outside and is new |
| `Group.ToOutsideSnoc` | nodes/group.py:130-132 | one more candidate link is recorded when it leads outside and is new |
| `Group.CollectExternalInputs` | nodes/group.py:120-126 | the input half of the loop computes `ExternalInputs` |
| `Group.RecordIncoming` | nodes/group.py:121-126 | the loop over one node's inputs admits, in socket order, the first link of each linked input |
| `Group.AdmittedIncomingRecords` | nodes/group.py:124-126 | admitting links one by one on top of the deduplicated outside links of a list gives the deduplicated outside links of the list extended by them |
| `Group.AdmittedFirstRecords` | nodes/group.py:121-126 | the inner input loop, run from the candidates so far, records the node's first links on top of them |
| `Group.RecordOutgoing` | nodes/group.py:129-132 | the innermost loop admits each link of the socket in order |
| `Group.AdmittedOutgoingRecords` | nodes/group.py:130-132 | admitting links one by one on top of the deduplicated outside links of a list gives the deduplicated outside links of the list extended by them |
| `Group.RecordNodeOutgoing` | nodes/group.py:127-132 | the loop over one node's outputs admits the links of each output, output after output |
| `Group.AdmittedOutputsRecords` | nodes/group.py:127-132 | the inner output loop, run from the candidates so far, records the node's outgoing links on top of them |
| `Group.CollectExternalOutputs` | nodes/group.py:120-132 | the output half of the loop computes `ExternalOutputs` |
| `Group.SelectedNodesMember` | nodes/group.py:108-113 | exactly the selected nodes other than group inputs and outputs are grouped |
| `Group.FromOutsideMember` | nodes/group.py:124-126 | the kept links are the candidates from outside, each once |
| `Group.ToOutsideMember` | nodes/group.py:130-132 | the kept links are the candidates leading outside, each once |
| `Group.FirstLinksMember` | nodes/group.py:121-123 | the candidates of a node are the first links of its linked inputs |
| `Group.InputCandidatesMember` | nodes/group.py:120-123 | the input candidates are the first links into inputs of selected nodes |
| `Group.ExternalInputsMember` | nodes/group.py:115-126 | the external inputs are, once each, the first links into grouped nodes from ungrouped ones |
| `Group.OutgoingLinksMember` | nodes/group.py:127-129 | the candidates of a node are all links out of its outputs |
| `Group.OutputCandidatesMember` | nodes/group.py:120-129 | the output candidates are all links out of selected nodes |
| `Group.ExternalOutputsMember` | nodes/group.py:115-132 | the external outputs are, once each, the links from grouped nodes to ungrouped ones |
| `Group.ExternalLinksResolve` | nodes/group.py:173-199 | the boundary links resolve to sockets of the tree |
| `Group.NamedOutput` | nodes/group.py:183 | looking an output up by the link's socket name finds a socket of that name |
| `Group.NamedInput` | nodes/group.py:198 | looking an input up by the link's socket name finds a socket of that name |
| `Group.LinksAvoidingAppend` | nodes/group.py:202-203 | removing nodes drops links from each part of a link list separately |
| `Group.LinksAvoidingKeeps` | nodes/group.py:202-203 | a link touching no removed node survives |
| `Group.NamesOfSelected` | nodes/group.py:108-113 | a name absent from the tree is not a grouped node's name |
| `Group.RewiredLinksSurvive` | nodes/group.py:182-199 | the re-made links touch only the group node and ungrouped nodes, so the removal keeps them |
| `Group.WithoutNodesSnoc` | nodes/group.py:202-203 | the group node added at line 159 is not removed with the grouped nodes |
| `Group.GroupNodes` | nodes/group.py:99-205 | the base tree loses the grouped nodes and their links, gains the group node, and each boundary link is re-made through the group node by `links.new`, which evicts the links of a full to-socket; the path enters the new tree |
| `Group.RegroupTree` | nodes/group.py:104-205 | on the base tree's values: the nodes lose the grouped ones and gain the group node; the links are `Relinked`, the re-made input links and then the re-made output links made one by one, each evicting the links of a full to-socket, and then lose every link of a grouped node; the interface sockets mirror the boundary sockets |
| `Group.LinksIntoAvoiding` | nodes/group.py:202-203 | removing the grouped nodes commutes with taking the links into one socket |
| `Group.NothingIntoMissingNode` | nodes/group.py:159-161 | no link of the tree ends at a node the tree does not have yet, such as the new group node |
| `Group.RelinkedIntoGroup` | nodes/group.py:173-199 | after both relinking loops an input of the new group node holds only the re-made link of the last boundary link resolving to it by name, or none |
| `Group.GroupInputKeepsLastLink` | nodes/group.py:173-203 | after grouping, each group node input has at most one link: the re-made link of the last boundary link resolving to it by name; earlier ones into the same socket (all same-named boundary inputs go to the first input of that name) are evicted |
| `Group.GroupingKeepsIoNodes` | nodes/group.py:108-113 | group input and output nodes stay, deselected, and every grouped node is removed by the loop at lines 202-203 |
| `Group.WithoutNodesMember` | nodes/group.py:202-203 | a node stays exactly when its name is not among the removed ones |
| `Group.EditorPath.constructor` | nodes/group.py:223 | a path starts at the base tree |
| `Group.Toggled` | nodes/group.py:222-232 | FINISHED exactly when the active node is a selected group node with a tree, which is then entered; otherwise CANCELLED, leaving the current tree when the path is longer than one; a selected group node without a tree raises and leaves the path alone; the path never empties |
| `Group.ToggleEditGroup` | nodes/group.py:222-232 | the operator's outcome and new path are `Toggled` |
| `Workflows.Marked` | node_trees/workflows.py:16-19 | a link ends valid exactly when it was valid and its socket types agree; nothing else changes |
| `Workflows.MarkedIdempotent` | node_trees/workflows.py:16-19 | marking never re-validates a link, and marking twice is marking once |
| `Workflows.MarkInvalidLinks` | node_trees/workflows.py:16-19 | the loop computes `Marked` and leaves the nodes alone |
| `Workflows.WithoutLink` | node_trees/workflows.py:41 | the removed link is gone and no link is added |
| `Workflows.LinksAfterClear` | node_trees/workflows.py:27-35 | clearing a node's sockets drops the links on that side of it |
| `Workflows.Update` | node_trees/workflows.py:21-41 | the loop over the links computes `Repaired` |
| `Workflows.MatchingLinkUntouched` | node_trees/workflows.py:22-23 | a link whose socket types agree is left alone |
| `Workflows.MismatchedLinkRemoved` | node_trees/workflows.py:40-41 | a mismatched link touching no reroute is removed and nothing else changes |
| `Workflows.FromRerouteRepaired` | node_trees/workflows.py:24-29 | a from-side reroute keeps a single "Output" socket of the to-socket's type, linked to the to-socket |
| `Workflows.ToRerouteRepaired` | node_trees/workflows.py:32-37 | a to-side reroute keeps a single "Input" socket of the from-socket's type, linked from the from-socket |
| `Workflows.RefusedRepairChangesNothing` | node_trees/workflows.py:30-39 | a repair the host refuses is swallowed and changes nothing |
| `Workflows.RepairedChangesOnlyReroutes` | node_trees/workflows.py:21-41 | only reroute nodes change, and every node keeps its name and type |
| `Workflows.RepairStepChangesOnlyReroutes` | node_trees/workflows.py:21-41 | repairing one link changes only reroute nodes and keeps every node's name and type |
| `Workflows.SameNamesSameIndex` | node_trees/workflows.py:21-41 | nodes with the same names are found at the same index |
| `Workflows.Poll` | node_trees/workflows.py:55-60 | `poll` holds exactly when some node is one of the three input node types of line 5 |
| `Workflows.OutputNodes` | node_trees/workflows.py:66-67 | the names of exactly the output nodes |
| `Workflows.Attempted` | node_trees/workflows.py:63-75 | the output nodes run in tree order up to and including the first one that raises |
| `Workflows.ExecutedEvents` | node_trees/workflows.py:68 | one execution event per attempted node |
| `Workflows.RunAllWorkflows` | node_trees/workflows.py:62-81 | FINISHED exactly when no output node raises, CANCELLED otherwise; the trace is the executions then one undo push and one undo |
| `Workflows.AttemptedPrefix` | node_trees/workflows.py:66-68 | past output nodes that do not raise, the run goes on with the rest |
| `Workflows.OneUndoPushOneUndo` | node_trees/workflows.py:77-79 | on both paths exactly one undo push followed by one undo |
| `Workflows.NoUndoInExecuted` | node_trees/workflows.py:66-68 | running the output nodes issues no undo event of its own |
| `Utils.PackageDir` | utils.py:10 | the package directory ends in the separator |
| `Utils.DependencyWalk.constructor` | utils.py:11-14 | the root module alone at depth 0, no edge followed |
| `Utils.DependencyWalk.Traverse` | utils.py:17-45 | the walk keeps its invariants: the three collections have the same keys, only files under the package are recorded, each depth is the greatest reached, and each edge is followed at most once; it terminates on cyclic graphs |
| `Utils.DependencyWalk.VisitMember` | utils.py:18-44 | non-modules, file-less modules and modules outside the package are skipped; an edge is followed only the first time |
| `Utils.DependencyWalk.Reach` | utils.py:30-37 | a module is recorded the first time it is met, and its depth becomes the maximum of the depths at which it was reached |
| `Utils.ReachStep` | utils.py:30-37 | recording a module under the package keeps the three collections' keys equal, every recorded module under the package, each depth the greatest reached, and every earlier module object |
| `Utils.DependencyWalk.Follow` | utils.py:40-42 | an edge is marked as followed, once |
| `Utils.Max` | utils.py:37 | the larger of two depths |
| `Utils.FewerEdgesLeft` | utils.py:40-42 | each followed edge shrinks the number of edges left, so the recursion ends |
| `Utils.PackageDependencies` | utils.py:7-48 | the two returned maps have the same keys, the root is among them at its own module, and every other key lies under the package directory; each recorded depth is the greatest depth at which the walk reached that module |
| `Utils.ReloadsBeforeTotal` | utils.py:56 | of two different modules one reloads before the other |
| `Utils.ReloadsBeforeTransitive` | utils.py:56 | the reload order is transitive |
| `Utils.ReloadsBeforeAsymmetric` | utils.py:56 | the reload order is asymmetric |
| `Utils.InsertForReload` | utils.py:56 | inserting a module keeps the order sorted and holds exactly the old modules and the new one |
| `Utils.InsertedSorted` | utils.py:56 | a module placed between those before it and those after it leaves the order sorted |
| `Utils.SortedNoDups` | utils.py:56 | a sorted reload order holds each module once |
| `Utils.ReloadOrder` | utils.py:56 | every recorded module exactly once, deepest first, equal depths by file name from last to first |
| `Utils.Rreload` | utils.py:51-58 | the reload list holds exactly the files of the recorded dependencies, each once, the root among them and the others under the package directory, sorted as `sorted(..., reverse=True)` sorts (depth, file) pairs; the k-th module reloaded is the one recorded for the k-th file; each depth is the greatest at which the module was reached |
| `Utils.FindLayerCollection` | utils.py:133-142 | a found layer collection holds the object's name |
| `Utils.FindInChildren` | utils.py:138-142 | a collection found among the children holds the object's name |
| `Utils.FirstHolding` | utils.py:133-142 | some collection is found exactly when one of the list holds the name |
| `Utils.FirstHoldingAppend` | utils.py:138-141 | searching two lists in turn is searching their concatenation |
| `Utils.FindIsFirstInPreOrder` | utils.py:133-142 | the search returns the first collection in pre-order holding the object, and None exactly when none does |
| `Utils.FindInChildrenIsFirst` | utils.py:138-142 | the same for the loop over the children |
| `Utils.GltfArgsChoices` | utils.py:65-81 | GLB exactly when the path ends in ".glb"; selected objects only, unapplied; `use_active_scene` forced on from 3.2.0; other remembered settings passed on |
| `Utils.FbxPresetFilename` | utils.py:87 | the preset file name holds no whitespace |
| `Utils.FbxPresetFilenameWords` | utils.py:87 | the file name splits back at "_" into the preset's words |
| `Utils.ExportFbx` | utils.py:86-109 | FileNotFoundError exactly when the preset is not found; otherwise the preset file and the absolute path |
| `Utils.ObjArgs` | utils.py:120-127 | the last-used settings with the file path, selected objects only and no modifiers applied |
| `Filters.FilterKeepsExactlyPassing` | nodes/filters.py:28-47 | Starts With and Ends With (and Contains as described at lines 53-55) keep exactly the objects whose name passes, in input order, as a subsequence, each passing object as many times as it was given |
| `Filters.FilterTwiceIsOnce` | nodes/filters.py:28-47 | filtering twice with the same string is filtering once |
| `Filters.EmptyFilterKeepsAll` | nodes/filters.py:28-47 | with an empty filter every object passes |
| `Filters.ContainsAsWritten` | nodes/filters.py:66 | as written, Contains keeps an object when its name occurs in the filter string |
| `Filters.ContainsAsWrittenIsReversed` | nodes/filters.py:53-66 | "Cube.001" is dropped by the written test for "Cube" and kept by the described one; an empty filter keeps only empty names |
| `Filters.NameFilterNodeInit` | nodes/filters.py:20-22 | the filter node's sockets and colour, then one "filter" string input; the Ends With, Contains and Regex nodes repeat it at lines 39-41, 58-60 and 77-79 |
| `Grouping.ListOfSet` | nodes/grouping.py:17 | `list(set(...))`: each element once, exactly the set's elements |
| `Grouping.CombineSets` | nodes/grouping.py:15-19 | the output has no duplicates and exactly the elements of the linked input data |
| `Grouping.DistinctShorter` | nodes/grouping.py:17 | a duplicate-free list drawn from another is no longer than it |
| `Grouping.DistinctCard` | nodes/grouping.py:17 | a duplicate-free list is as long as its set |
| `Grouping.SeqSetCard` | nodes/grouping.py:17 | a list's set is no larger than the list |
| `Grouping.RemoveFromSet` | nodes/grouping.py:34-41 | the distinct main objects minus the excluded ones; ValueError when an excluded object is missing or listed twice |
| `Grouping.RemoveFirst` | nodes/grouping.py:38-39 | `list.remove` on a duplicate-free list drops exactly that element |
| `Grouping.NotRemovable` | nodes/grouping.py:38-39 | a failing removal means the object was never in the main set or is excluded twice |
| `Grouping.WithLinkLimit` | nodes/grouping.py:30-32 | the named input gets the link limit; KeyError when there is no such input |
| `Grouping.CombineSetsInit` | nodes/grouping.py:11-13 | the filter node's init, then no link limit on "objects" |
| `Grouping.RemoveFromSetInit` | nodes/grouping.py:28-32 | the filter node's init, no link limit on "objects", a new "exclude" input without link limit |
| `Misc.Renamed` | nodes/misc.py:20-23 | renaming keeps the number of objects |
| `Misc.RepeatAppend` | nodes/misc.py:20-21 | one more affix extends the repeated affix by one |
| `Misc.AffixedFromStep` | nodes/misc.py:20-23 | one more pass of the loop body adds one more affix and re-syncs the data name |
| `Misc.RenamedEffect` | nodes/misc.py:20-23 | an object listed k times carries the affix k times; its data block, if any, takes the new name; objects not listed are untouched |
| `Misc.RenamedConcat` | nodes/misc.py:20-23 | renaming over two lists in turn is renaming over their concatenation |
| `Misc.AddAffix` | nodes/misc.py:18-25 | the objects become `Renamed`; the output is the input list; selection, active object and layers are unchanged |
| `Misc.AddPrefixToName` | nodes/misc.py:16-25 | prefix renaming with the data block synced |
| `Misc.AddSuffixToName` | nodes/misc.py:62-71 | suffix renaming with the data block synced |
| `Transforms.ModifierKeys` | nodes/transforms.py:10-11 | one key per modifier, in stack order: `mod.type` here, `mod.name` in the by-name callback at lines 71-72 |
| `Transforms.Scanned` | nodes/transforms.py:15-21 | the scan visits a prefix of the store, ending at the first record for the key |
| `Transforms.MaxId` | nodes/transforms.py:12-18 | the largest visited id, or -1 |
| `Transforms.AsWrittenNumbering` | nodes/transforms.py:13-27 | for a stored key the written numbering is the intended one; for a new key it is the last record's id (or -1) |
| `Transforms.NewKeyItemCollides` | nodes/transforms.py:13-27 | with SUBSURF stored under 0, a new MIRROR is stored under 1 but its item is numbered 0 |
| `Transforms.RegisteredAppendOnly` | nodes/transforms.py:15-27 | the store only grows at its end and then holds every key; one item per modifier with the key as identifier, name and description |
| `Transforms.StoredKeepsIds` | nodes/transforms.py:23-24 | storing a key never changes the id of another |
| `Transforms.StoredHasKey` | nodes/transforms.py:23-24 | after storing, the key is held under one more than the largest id |
| `Transforms.RegisteredKeepsStoreDistinct` | nodes/transforms.py:15-24 | a store with distinct keys and ids keeps both |
| `Transforms.RegisteredItemNumbers` | nodes/transforms.py:13-27 | each item is numbered with its key's id in the final store |
| `Transforms.ItemNumbersIdentifyKeys` | nodes/transforms.py:13-27 | from a store with distinct keys and ids, two items share a number exactly when they share a key |
| `Transforms.ModifierStore.constructor` | nodes/transforms.py:36 | a class-level store starts empty, as does the by-name store at line 96 |
| `Transforms.ModifierStore.Scan` | nodes/transforms.py:12-21 | `found` exactly when the store holds the key; `id` and `maxid` are the last and largest ids scanned |
| `Transforms.ModifierStore.Register` | nodes/transforms.py:12-27 | store and item are `Registration` |
| `Transforms.ModifierStore.RegisterStack` | nodes/transforms.py:11-27 | corrected (see ## Findings): one object's modifier stack, in order, each item numbered with its key's stored id |
| `Transforms.ModifierStore.EnumItems` | nodes/transforms.py:6-29 | corrected (see ## Findings): store and items are `Registered` over every modifier of every input object, object by object; `get_modifiers_names` at lines 67-90 is the same with the name as key |
| `Transforms.RegisteredConcat` | nodes/transforms.py:10-27 | a callback over two key lists is one over the first followed by one over the second |
| `Transforms.AddPrefixToName` | nodes/transforms.py:170-176 | only the objects' names get the prefix; data blocks keep their names |
| `Transforms.AddSuffixToName` | nodes/transforms.py:197-203 | only the objects' names get the suffix; data blocks keep their names |
| `Transforms.SelectAndActivateLast` | nodes/transforms.py:253-267 | exactly the inputs are selected; a non-empty input makes the last one active and yields it alone; an empty input raises (unbound `last_ob`); the translate nodes share this prelude at lines 293-304 and 330-341 |
| `Transforms.TranslateToObjectPosition` | nodes/transforms.py:330-345 | the same prelude, then AttributeError when no target object is set |
| `Inputs.OwnObjectsAppend` | nodes/inputs.py:42-48 | own objects of two collection lists are those of each in turn |
| `Inputs.CollectionObjectsInPreOrder` | nodes/inputs.py:42-48 | the gathered objects are the own objects of every collection in pre-order, duplicates kept |
| `Inputs.ChildrenObjectsInPreOrder` | nodes/inputs.py:45-46 | the same for the loop over the children |
| `Inputs.CollectionObjectsMember` | nodes/inputs.py:42-48 | an object is gathered exactly when some collection of the tree holds it |
| `Inputs.OwnObjectsMember` | nodes/inputs.py:44 | an object is among the own objects exactly when one of the collections holds it |
| `Inputs.FirstUnplaced` | nodes/inputs.py:31-33 | the first input object no layer collection holds, every earlier one being held; there the strict loops (also lines 78-80) raise |
| `Inputs.NoLayerMessagesEmpty` | nodes/geometry.py:26-31 | the lenient loop prints nothing exactly when a layer collection holds every input |
| `Inputs.RevealedAreFirstHolders` | nodes/inputs.py:132-135 | a layer collection is revealed exactly when it is the first in pre-order holding some input object |
| `Inputs.InputNode.constructor` | nodes/inputs.py:71 | the cache starts empty |
| `Inputs.InputNode.OnSceneUpdate` | nodes/inputs.py:5-9 | the cache is the scene's objects, or `[]` without a target |
| `Inputs.InputNode.OnCollectionUpdate` | nodes/inputs.py:51-55 | the cache is the collection's gathered objects, or `[]` without a target |
| `Inputs.InputNode.OnObjectUpdate` | nodes/inputs.py:89-96 | the cache is the target, then its children when asked, or `[]` without a target |
| `Inputs.Reveal` | nodes/inputs.py:128-137 | lenient (Object Input): every held object's first layer collection is revealed and a line printed for each unheld one; strict (Scene and Collection Input, lines 31-33 and 78-80): AttributeError at the first unheld object, after revealing those before it |
| `Inputs.RevealLoop` | nodes/inputs.py:128-137 | on values: lenient, the revealed layer collections are those of every held object and one line is printed per unheld object; strict, nothing is printed, the walk stops at the first unheld object and reveals exactly those before it |
| `Inputs.SceneInputExecute` | nodes/inputs.py:27-36 | the cache is refreshed, then revealed strictly and published |
| `Inputs.CollectionInputExecute` | nodes/inputs.py:74-83 | the cache is refreshed, then revealed strictly and published |
| `Inputs.ObjectInputExecute` | nodes/inputs.py:128-140 | the cache is refreshed, then revealed leniently and published |
| `Geometry.Converted` | nodes/geometry.py:35-38 | converted input objects become meshes; everything else is unchanged |
| `Geometry.RemoveFirstOfCount` | nodes/geometry.py:54 | `remove` takes out one occurrence |
| `Geometry.RemoveEachKeepsHead` | nodes/geometry.py:53-54 | removals that do not name the head keep it in front |
| `Geometry.RemovingMeshesLeavesNonMeshes` | nodes/geometry.py:53-54 | removing each mesh of the converted list once leaves exactly the non-meshes, in order |
| `Geometry.SplitFirst` | nodes/geometry.py:40 | splitting off the first input splits meshes and non-meshes alike |
| `Geometry.FilterMultiset` | nodes/geometry.py:40 | the meshes comprehension takes each object at most as often as the input lists it |
| `Geometry.JoinRename` | nodes/geometry.py:47-51 | the joined object and its data block take the new name; nothing else changes |
| `Geometry.JoinRenameAsWritten` | nodes/geometry.py:47-51 | as written the data rename is guarded on the last input, not on the joined object |
| `Geometry.DataRenameGuardedOnLastInput` | nodes/geometry.py:47-51 | a mesh listed before an empty: the written code renames the mesh but not its data block |
| `Geometry.OutputShape` | nodes/geometry.py:40-55 | with a mesh, the output is the non-meshes in input order followed by the first mesh, the joined object |
| `Geometry.RevealAndSelect` | nodes/geometry.py:22-32 | stops at the first input no layer collection holds: the inputs before it revealed and selected and its one line printed; with none, every input revealed and selected and nothing printed |
| `Geometry.ConvertAndJoin` | nodes/geometry.py:34-57 | objects `Converted`; no mesh: UnboundLocalError with the active object per `LastActivated`; otherwise the first mesh active and renamed by `JoinRename`, output the non-meshes then it; selection, layers and console unchanged |
| `Geometry.ConvertNonMeshes` | nodes/geometry.py:35-38 | the objects become `Converted`; the active object is the one `LastActivated` names, the last input that is not a mesh when its turn comes, or stays as it was when there is none |
| `Geometry.LastActivated` | nodes/geometry.py:35-38 | the position it gives holds an input that is not a mesh at its turn, and no later input is |
| `Geometry.LastActivatedStep` | nodes/geometry.py:35-38 | one more turn of the loop makes that input the last activated when it is not a mesh, and keeps the earlier answer otherwise |
| `Geometry.RemoveMeshes` | nodes/geometry.py:53-54 | every removal finds its mesh, and the non-meshes are left in order |
| `Geometry.JoinObjects` | nodes/geometry.py:18-57 | corrected (see ## Findings): the data rename is `JoinRename`, not `JoinRenameAsWritten`; an input no layer collection holds: RuntimeError from `select_set` after its line is printed, with only the inputs before it revealed and selected and objects and active object unchanged; otherwise inputs revealed and selected; no mesh: UnboundLocalError, with the active object as `ConvertNonMeshes` left it; otherwise the first mesh is active and renamed when a name is given, and the output is the non-meshes followed by it |
| `Uv.Activated` | nodes/uv.py:25-27 | activation keeps the number of layers |
| `Uv.ActivatedObjects` | nodes/uv.py:22-27 | activation keeps the number of objects |
| `Uv.ActivationEffect` | nodes/uv.py:22-27 | a layer whose name occurs in the given name becomes active; other layers, names, objects without data and objects with no matching layer are unchanged |
| `Uv.ActivationIdempotent` | nodes/uv.py:25-27 | activating twice is activating once |
| `Uv.ActivateLayers` | nodes/uv.py:25-27 | the loop over the layers computes `Activated` |
| `Uv.FirstWithoutUvLayers` | nodes/uv.py:22-25 | the first listed object whose data block is not a mesh's, the one whose `data.uv_layers` raises |
| `Uv.SetActiveUvMap` | nodes/uv.py:18-29 | with every listed object a mesh or without data, the objects become `ActivatedObjects` and the output is the input list; otherwise AttributeError, with the objects listed before the first offending one updated; nothing else changes |
| `Export.SelectForExport` | nodes/export.py:15-22 | exactly the inputs are selected; the last input is active when there is one, and the active object is untouched otherwise |
| `Export.ExportGltf` | nodes/export.py:11-25 | the prelude, then the glTF arguments built from the node's own file path |
| `Export.ExportFbx` | nodes/export.py:34-48 | the prelude, then TypeError: the call leaves out the required `preset` argument |
| `Export.ExportObj` | nodes/export.py:57-71 | the prelude, then the OBJ arguments built from the node's own file path |
| `ObjectsSocket.SocketAdded` | sockets/objects_socket.py:18-21 | adding appends exactly one objects socket named "in" and keeps every other input; its identifier is new on the node, and "in" when that is free, so distinct identifiers stay distinct |
| `ObjectsSocket.AddedIdentifier` | sockets/objects_socket.py:18-21 | when "in" is taken, the added input's identifier is the first free `in_<k>` |
| `ObjectsSocket.AddedTwice` | sockets/objects_socket.py:18-21 | adding twice to a node with one "in" input gives identifiers "in", "in_001", "in_002" |
| `ObjectsSocket.LastSocketRemoved` | sockets/objects_socket.py:37-41 | removal drops exactly the last input when there are two or more and changes nothing otherwise, so a node never goes below one input |
| `ObjectsSocket.RemoveUndoesAdd` | sockets/objects_socket.py:18-41 | on a node with at least one input, remove after add gives back the node; on a node with none, the added input stays |
| `ObjectsSocket.AddObjectSocket` | sockets/objects_socket.py:18-21 | the node gains the socket, with an identifier of its own; FINISHED; no link changes; the copy at nodes/transforms.py lines 219-222 is the same |
| `ObjectsSocket.RemoveObjectSocket` | sockets/objects_socket.py:37-41 | the node loses its last input when it has more than one; FINISHED; the copy at nodes/transforms.py lines 238-242 is the same |
| `ObjectsSocket.ComputeHasPrevTransforms` | sockets/objects_socket.py:44-53 | the flag holds exactly when the first input is a flow socket and some link into it starts at a transform node |
| `ObjectsSocket.ButtonFor` | sockets/objects_socket.py:82-90 | no button exactly on outputs and group or IO nodes; the add button exactly on the input at the start index (0 for function nodes, else 1); the pre-4.0 `draw` at lines 65-73 is the same |
| `ObjectsSocket.OneAddButton` | sockets/objects_socket.py:86-90 | on an ordinary node exactly one input shows add and every other input shows remove |
| `ObjectsSocket.InputSocketRedWhen` | sockets/objects_socket.py:92-101 | an input socket is red exactly when the host is 4.0.0 or later, the node follows a transform, and the socket's first link starts at an input node; before 4.0.0 (lines 75-76) it is always green |
| `ObjectsSocket.OutputSocketRedWhen` | sockets/objects_socket.py:92-101 | an output socket is red exactly when the host is 4.0.0 or later, the node follows a transform, is an input node, and the socket is linked |
| `Host.Scene.SelectOnly` | nodes/export.py:15-18 | `select_all(DESELECT)` then selecting each input: exactly the inputs are selected |
| `Graph.FirstLinkIntoIsFirst` | nodes/mixins.py:26 | `links[0]` is the first link into the socket in the tree's link order |
| `Graph.LinkedNew` | nodes/group.py:182-185 | `links.new` with `verify_limits`: a to-socket already holding its limit loses exactly its links and keeps every other link; below the limit nothing is dropped; the new link goes last |
| `Graph.LinkEach` | nodes/group.py:173-199 | the loop of `links.new` calls equals `LinkAll` over the new links and their limits |
| `Graph.LastLinkInto` | nodes/group.py:182-185 | the position of a new link ending at the socket with no later one ending there |
| `Graph.LinkedNewInto` | nodes/group.py:182-185 | a new link into a one-link socket is then its only link; the links into every other socket are unchanged |
| `Graph.LinkAllInto` | nodes/group.py:173-199 | after a run of `links.new`, a one-link socket that some of them end at holds only the last of those; any other socket keeps its links |
| `Graph.FirstLinkIntoNone` | nodes/mixins.py:25 | `is_linked` is false exactly when no link of the tree ends at the socket |
| `Graph.AddedSocket` | sockets/objects_socket.py:20 | `inputs.new` gives the socket the type and name asked for and an identifier no socket on that side has, the name itself when free |
| `Graph.UniqueIdentifier` | sockets/objects_socket.py:20 | the identifier is not taken; it is the name when that is free, else the first free of `name_001`, `name_002`, ... |
| `Graph.FirstFreeNumber` | sockets/objects_socket.py:20 | the number found is free and every number before it from the start is taken |
| `Graph.NumberedNameInjective` | sockets/objects_socket.py:20 | different numbers give different identifiers |
| `Strings.Padded3Parses` | sockets/objects_socket.py:20 | the zero-padded numeral reads back as its number |
| `Strings.Words` | utils.py:87 | `split()` gives non-empty words free of every character `str.isspace()` accepts, Unicode separators included |
| `Strings.SplitJoin` | utils.py:87 | joining words free of the separator and splitting again gives back the words |
| `Strings.JoinNoSpace` | utils.py:87 | joining whitespace-free words with a whitespace-free separator gives a whitespace-free string |
| `Strings.LexLessIrreflexive` | utils.py:56 | no file name sorts before itself |
| `Strings.LexLessTransitive` | utils.py:56 | string order is transitive |
| `Strings.LexLessTotal` | utils.py:56 | of two different file names one sorts first |

## Left out

- Blender operators whose effect the host defines: `modifier_apply`, `convert`, `join`,
  `make_single_user`, `duplicates_make_real`, `transform_apply`, `origin_set`, bmesh
  `remove_doubles`, and the exporters themselves. Join Objects takes the set of objects the host
  converts as a parameter, and the merge and deletion of the joined meshes is not modelled.
  nodes/modifiers.py, nodes/object.py and operators.py, which mostly chain such calls, are not
  part of this model.
- The `execute` methods of Apply Modifier By Type, By Name and All (nodes/transforms.py:55-64,
  115-124, 134-142): they only call `modifier_apply`. Their `mod.type in self.modifier` is a
  substring test on the enum value, not an equality.
- Floating-point work: node placement in grouping (nodes/group.py:134-152), and the location
  writes of the translate nodes (nodes/transforms.py:306-309, 343). Only their selection prelude
  and their error paths are modelled.
- The Regex filter (nodes/filters.py:81-87): it depends on Python's regular-expression engine.
- `filter_update` (nodes/filters.py:6-10) and `string_update` (nodes/transforms.py:145-149):
  colour callbacks. `string_update` reads `self.filter`, which the prefix and suffix nodes do not
  have, so it would raise AttributeError.
- Reading and `exec`-ing the FBX preset file (utils.py:96-106), the `preset_path` else branch
  (utils.py:111-117, dead because the path is never empty), and `bpy.path.abspath`, which is a
  parameter.
- Clipboard copy and paste in grouping (nodes/group.py:155-168), and the sockets the host creates on
  the group node from the new interface: grouping is modelled as link and selection bookkeeping.
- Blender's automatic ".001" name de-duplication: a rename is a plain assignment.
- Drawing, registration, key maps, menus, panels and colour constants: `__init__.py`,
  nodes/__init__.py, sockets/__init__.py, consts.py, sockets/enum_socket.py,
  sockets/flow_socket.py, nodes/run.py and nodes/debug.py are not part of this model.
- nodes/outputs.py, a second glTF export node that the package never imports.
- The `init` methods of the prefix, suffix, join and UV nodes (one string input each), of the
  input nodes (they run the cache callback, modelled by `Inputs.InputNode`), and of the action
  nodes in nodes/transforms.py (the transform colour); the input nodes' `refresh` methods, which
  only run the cache callback.
- The `poll` class methods (nodes/mixins.py:10-12, nodes/group.py:91-97 and 214-220), which read
  the editor's state, and every `draw_buttons` method, including the error colour Object Input
  sets while drawing a target with no users (nodes/inputs.py:124-126).
- Join Objects Geometry and Translate To Position in nodes/transforms.py (lines 253-267 and
  293-311): only their shared prelude, `Transforms.SelectAndActivateLast`, is modelled; the join
  and the location write are host and floating-point work.
- Console output: only the lines Object Input and Join Objects print for an unplaced object are
  kept (in `Scene.console`); the `print` calls of group-socket synchronisation and `rreload` are not.
- Removing a socket does not remove the links attached to it (`Group.UpdateGroupNode`,
  `ObjectsSocket.RemoveObjectSocket`); the host does that, and links into a removed socket simply
  no longer resolve.
- Python object identity: objects are indices into `Scene.objects`, and a socket is compared by
  position (`self == self.node.inputs[start_index]`).
- Group.InterfaceInputs: a group interface socket's identifier is its name (the host makes a
  "Socket_<n>" identifier); the source looks these sockets up by name, and so does the model, so
  sockets that share a name resolve to the first of them in both. The same holds for
  Group.InterfaceOutputs.
- Misc.AddAffix: data blocks are held by value inside their object, so objects that share one data block in the host (linked duplicates) do not see each other's changes to it.
- Misc.RenamedEffect: data blocks are held by value inside their object, so objects that share one data block in the host (linked duplicates) do not see each other's changes to it.
- Uv.SetActiveUvMap: data blocks are held by value inside their object, so objects that share one data block in the host (linked duplicates) do not see each other's changes to it.
- Uv.ActivationEffect: data blocks are held by value inside their object, so objects that share one data block in the host (linked duplicates) do not see each other's changes to it.
- Geometry.JoinRename: data blocks are held by value inside their object, so objects that share one data block in the host (linked duplicates) do not see each other's changes to it.
- Uv.SetActiveUvMap: the host keeps at most one UV layer active; the model keeps a flag per layer
  and only records that the matching layers were set, so when several layers match it does not say
  which one ends up active.
- Geometry.JoinObjects: uses the corrected data rename, so after a trailing empty input it renames the joined mesh's data, which the code as written does not (see ## Findings and `Geometry.JoinRenameAsWritten`).
- Host.Scene.SelectOnly: every object it selects is taken to be in the view layer; the host's `select_set` raises RuntimeError for one that is not. Geometry.JoinObjects models that error for an input no layer collection holds (`Geometry.RevealAndSelect`); Export.SelectForExport and Transforms.SelectAndActivateLast rely on the assumption.
- Group.RegroupTree: `links.new` evicts the links of a full to-socket only; the from-socket's limit (an output takes up to 4095 links in the host) is not checked. The group node's inputs are taken to exist when the input links are re-made, each with the default one-link limit that the interface sync gives them. The same holds for Group.GroupNodes.
- Workflows.Update: walks a copy of the links taken before the loop, skips a link an earlier step removed, and reads a link's ends from that copy after `outputs.clear()` or `inputs.clear()` removed it; the source iterates `self.links` while changing it and reads `link.to_socket` from a link the clear freed, so which links the host visits and what that read gives are not captured.
- Geometry.JoinObjects: the ReferenceError the data rename can raise when the last input is a mesh
  the host deleted while joining is not modelled, nor is the active object on the path that raises.
- Mixins.Execute: `sources` are the nodes whose data comes from helpers outside this model
  (`get_input_socket_data` and friends); both entry points return the given list for them.
- The socket names of nodes/mixins.py ("in", "out") and of the node files (`inputs["objects"]`)
  disagree; the model creates the sockets as mixins.py names them and takes the node files' input
  data as given lists.

## Findings

| source | as written | input that shows it | evidently intended | confidence | as-written member | corrected member |
|---|---|---|---|---|---|---|
| nodes/group.py:13-21 | the loop only compares positions before the group's last socket, so a socket inserted at that position or after it goes unnoticed: `new_idx` stays 0 and `idx` ends at the interface's last index, so the interface's last socket is copied to the front | group sockets [A], interface [A, B, placeholder] gives [B, A]; group sockets [A, C], interface [A, B, C, placeholder] gives [C_001, A, C], a copy of C under a fresh identifier, and B is never added | the new socket is inserted where it is in the interface | not executed | `Group.AppendedSocketLandsFirst` and `Group.InsertedSocketMissed` (on `Group.UpdatedSocketsAsWritten`) | `Group.UpdatedSockets`, with `Group.AddRestoresInterface` |
| nodes/group.py:52-57 | the removal loop runs over the interface's length, so the group's last socket is never checked | group sockets [A, B], interface [A, placeholder] | B is removed | not executed | `Group.RemovedLastSocketStays` (on `Group.UpdatedSocketsAsWritten`) | `Group.UpdatedSockets`, with `Group.RemoveRestoresInterface` |
| nodes/filters.py:66 | `ob.name in filter` keeps objects whose name occurs in the filter string | object "Cube.001", filter "Cube" | keep names that contain the filter, as the node's description says | not executed | `Filters.ContainsAsWritten`, with `Filters.ContainsAsWrittenIsReversed` | `Filters.FilterObjects` with `ContainsFilter`, with `Filters.FilterKeepsExactlyPassing` |
| nodes/geometry.py:50 | the data rename tests `ob`, the last input of the convert loop, instead of `last_ob`: after a trailing empty it skips the data rename, and after a trailing second mesh, which the join deleted, `hasattr(ob, "data")` raises ReferenceError (not modelled, see `Geometry.JoinObjects` under Left out) | a mesh "Cube" with data "Cube" then an empty, name "Joined" | the joined mesh's data is renamed "Joined" | not executed | `Geometry.JoinRenameAsWritten`, with `Geometry.DataRenameGuardedOnLastInput` | `Geometry.JoinRename`, used by `Geometry.JoinObjects` |
| nodes/transforms.py:13-27, 74-88 | for a modifier key not yet stored, the item's number is the last scanned record's id (or -1), not the id just stored | store [(0, "SUBSURF")], a MIRROR modifier | MIRROR's item is numbered 1, its stored id | not executed | `Transforms.RegistrationAsWritten`, with `Transforms.NewKeyItemCollides` | `Transforms.Registration`, used by `Transforms.ModifierStore.Register`, with `Transforms.ItemNumbersIdentifyKeys` |
