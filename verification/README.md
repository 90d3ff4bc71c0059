# Media-Git version control, modelled in Dafny

This project models the snapshot version-control engine of the Media-Git
canvas editor, together with the small pure rules its panels add on top.

The engine keeps three persisted records:
- a list of commits, each with a full scene snapshot;
- a list of branches, each naming a head commit;
- the id of the active branch.

It provides these operations:
- commit the live scene onto the active branch;
- create and switch branches; restore the scene from a commit;
- detect conflicts between the head snapshots of two branches;
- merge branch B into branch A.

A merge keeps A as the base and takes B's object wherever a `keep_b` resolution asks for it. It then records a commit that has both heads as parents.

Besides the engine, the project models:
- the relative-time text ("3 days ago");
- the commit-graph layout (nodes, lanes, edges, deletability);
- the branch panel's guards and dialogs;
- the commit dialog's tag list.

Modules follow the program's files:

| module | file | models |
|---|---|---|
| `Wrappers` | wrappers.dfy | `Option` and `Result` |
| `Strings` | strings.dfy | decimal rendering and parsing; JavaScript `trim` |
| `Sorting` | sorting.dfy | the stable `Array.prototype.sort` by an integer key |
| `Scene` | scene.dfy | scene objects, the `id \|\| uuid` key, and JavaScript `Map` built from a snapshot |
| `VersionControl` | version_control.dfy | the records and the persistence port with its defaults and id formats |
| `Diff` | diff.dfy | `detectObjectConflicts`, `compareCanvasStates`, and the resolution loop of `applyMergeResolutions` |
| `Manager` | manager.dfy | the `VersionControlManager` operations |
| `Repository` | repository.dfy | the repository invariant and its preservation by every operation |
| `DateUtils` | date_utils.dfy | `formatDistanceToNow` |
| `CommitGraph` | commit_graph.dfy | the node and edge derivation of the draggable commit graph |
| `BranchManager` | branch_manager.dfy | the branch panel's handlers and guards |
| `CommitModal` | commit_modal.dfy | the commit dialog as a state machine |

Inputs from the environment become parameters:
- Timestamps (`Date.now()`) are a `now: int` parameter.
- Generated ids are an `id` parameter, required to be fresh where that matters. Their format is modelled separately, with the clock reading and the random suffix as inputs.
- The thumbnail is an opaque string parameter.
- The live canvas is a `Snapshot` value held in a `Workspace` next to the persisted `Store`.

Behaviours of the code worth knowing, which the model keeps:
- `revertToCommit` with an unknown id does nothing. It reports no error.
- The history breaks timestamp ties in stored order. It is a stable sort on descending timestamp.
- Objects are keyed by `id || uuid`.
- The manager accepts empty commit messages, empty branch names and a merge of a branch into itself. Only the dialogs guard against the first two, and the merge handler does not check the third (see `BranchManager.MergeHandlerAcceptsSameBranch`).
- A commit writes the commit list and the branch list separately. The model computes both in one function.
- `formatDistanceToNow` renders a diff under two seconds as a singular `0 second` or `1 second`, and a future timestamp as a non-positive singular count of seconds.

## Model

| member | source | states |
|---|---|---|
| Strings.Trim | components/version-control/branch-manager.tsx:40-41 | the trimmed text has no leading or trailing whitespace, is a contiguous piece of the input, and is empty exactly when the input is all whitespace |
| Strings.TrimIdempotent | components/version-control/commit-modal.tsx:27-28 | trimming a trimmed value changes nothing, so a stored tag equals its own trim |
| Strings.IntToStringRoundTrip | lib/date-utils.ts:16 | the decimal text of a count (with a leading `-` for negatives) parses back to that count |
| Sorting.SortBy | lib/version-control-manager.ts:246 | the sort returns a permutation of its input (same length, same multiset) in non-decreasing key order |
| Sorting.SortByStable | lib/version-control-manager.ts:246 | for every key, the elements carrying it keep their relative order |
| Scene.FirstIndexByKey | lib/version-control-manager.ts:217 | `findIndex` by `id \|\| uuid` returns the first position carrying the key, or none when no object carries it |
| Scene.BuildMap | lib/version-control-manager.ts:120-121 | the map has distinct keys, each mapped to the last object carrying it, ordered by first occurrence; a lookup returns exactly that object |
| Scene.BuildMapUniqueKeys | lib/version-control-manager.ts:209-210 | when no key repeats, the map lists every object, in snapshot order, under its own key |
| VersionControl.GetCommits | lib/version-control.ts:59-62 | an absent commit record reads as no commits |
| VersionControl.SaveCommits | lib/version-control.ts:64-66 | a saved commit list reads back unchanged, and the other two records are untouched |
| VersionControl.GetBranches | lib/version-control.ts:68-93 | an absent branch record reads as exactly one branch `main`/`main` with empty head, created by `system` at the clock reading; a stored list reads back as stored |
| VersionControl.SaveBranches | lib/version-control.ts:73-75 | a saved branch list, even an empty one, reads back unchanged at every clock reading, so it suppresses the default |
| VersionControl.GetCurrentBranch | lib/version-control.ts:77-79 | the active id is never empty: an absent or empty record reads as `"main"` |
| VersionControl.SetCurrentBranch | lib/version-control.ts:81-83 | setting a non-empty id reads back that id, an empty one reads back as `"main"`, and the other records are untouched |
| VersionControl.GenerateCommitId | lib/version-control.ts:95-97 | commit ids start with `commit_` |
| VersionControl.GenerateBranchId | lib/version-control.ts:99-101 | branch ids start with `branch_` |
| VersionControl.GenerateCommitIdInjective | lib/version-control.ts:95-97 | different clock readings or suffixes give different commit ids |
| VersionControl.GenerateBranchIdInjective | lib/version-control.ts:99-101 | different clock readings or suffixes give different branch ids |
| VersionControl.CommitAndBranchIdsDiffer | lib/version-control.ts:95-101 | no commit id equals a branch id |
| Manager.FindBranch | lib/version-control-manager.ts:27 | `find` by id returns the first branch with that id, or none when no branch has it |
| Manager.FindCommit | lib/version-control-manager.ts:89 | `find` by id returns the first commit with that id, or none when no commit has it |
| Manager.CalculateChanges | lib/version-control-manager.ts:235-243 | the summary counts every canvas object as added, nothing as modified or deleted, with one detail line |
| Manager.CalculateChangesDetail | lib/version-control-manager.ts:241 | the detail line is the object count in decimal followed by ` objects on canvas` |
| Manager.CreateCommit | lib/version-control-manager.ts:23-55 | exactly one commit is appended and the earlier ones are unchanged; its parent is the active head when it has one, else none; the active branch's head becomes the new id and every other branch is unchanged; when the active id matches no branch, the branch record is not written; the active branch id never changes |
| Manager.CreateBranch | lib/version-control-manager.ts:57-73 | one branch is appended whose head is `fromCommitId` when given, else the active head (possibly empty); commits and the active branch id are untouched |
| Manager.SwitchToBranch | lib/version-control-manager.ts:75-85 | an unknown branch id changes nothing; a known one becomes active, and the scene is restored from its head only when the head is non-empty; commits and branches are untouched |
| Manager.RevertToCommit | lib/version-control-manager.ts:87-96 | the records never change; a known commit's snapshot becomes the scene; an unknown id changes nothing |
| Manager.RevertAfterCommit | lib/version-control-manager.ts:23-55 | reverting to a commit just made under a fresh id restores the scene it recorded, whatever is shown by then |
| Manager.HeadCommit | lib/version-control-manager.ts:102-110 | a head commit is found exactly when the first branch with the id exists, its head is non-empty and some commit has that id; it is then the first commit with that id, which is a stored commit named by the branch's head |
| Manager.DetectMergeConflicts | lib/version-control-manager.ts:98-116 | no conflicts when either branch is missing, has an empty head, or names a missing commit; otherwise exactly the conflicts of the two head snapshots, each once, in A's key order and, for one object, in the fixed type order |
| Manager.NoConflictsWithSameSnapshot | lib/version-control-manager.ts:98-116 | two branches whose heads hold the same snapshot (a branch and itself, say) have no conflicts |
| Manager.ApplyMergeResolutions | lib/version-control-manager.ts:198-225 | fails with "commit not found" exactly when either commit is missing; otherwise A's objects, same length and order, each replaced as `MergedObject` prescribes |
| Manager.RecordMergeCommit | lib/version-control-manager.ts:184-193 | the merge commit is made like a normal commit on the merged scene (same branch update, change summary of the merged scene, the given thumbnail), then patched to list the given parents, tags `merge` and the resolutions; the commit count grows by one |
| Manager.PatchFreshCommit | lib/version-control-manager.ts:188-193 | with a fresh id, the lookup finds the commit just appended, so the patch replaces only that commit |
| Manager.MergeBranches | lib/version-control-manager.ts:171-196 | fails with "branch not found" exactly when either branch is missing; with "commit not found" when a head cannot be resolved; otherwise records the merge of B into A with message `Merge B into A` and parents `[headA, headB]` |
| Manager.MergeKeepsBaseForUnmentioned | lib/version-control-manager.ts:178-184 | after a merge, an object no `keep_b` resolution names shows A's head version in the scene |
| Manager.GetCommitHistory | lib/version-control-manager.ts:245-247 | the history is a permutation of the stored commits in non-increasing timestamp order |
| Manager.GetCommitHistoryStable | lib/version-control-manager.ts:246 | commits with the same timestamp appear in stored order |
| Manager.GetCurrentBranchRecord | lib/version-control-manager.ts:253-257 | the record returned is the first listed branch with the active id; none means no listed branch has it |
| Manager.SwitchThenCurrentBranch | lib/version-control-manager.ts:75-85 | after switching to a listed branch, the active record is the first listed branch with that id; the empty id reads back as `main` |
| Diff.ConflictIf | lib/version-control-manager.ts:138-146 | one conflict of the given type exactly when the difference holds, otherwise none |
| Diff.DetectObjectConflicts | lib/version-control-manager.ts:134-169 | a position conflict iff left or top differ, a style conflict iff fill or stroke differ, a content conflict iff A is text and the texts differ, never a deletion, in that order, at most three, each carrying A's key and type, both commit ids and both sides' values |
| Diff.NoSelfConflicts | lib/version-control-manager.ts:134-169 | an object compared with itself has no conflicts |
| Diff.CompareEntries | lib/version-control-manager.ts:123-129 | the loop over A's map yields exactly the conflicts of the entries whose key B also has, in entry order, one object's conflicts in the fixed type order |
| Diff.CompareCanvasStates | lib/version-control-manager.ts:118-132 | a conflict is reported iff it is a conflict between the two objects both snapshots carry under its key; never a deletion; carries both commit ids; no conflict twice; ordered by first occurrence of the key in A, and one object's conflicts in the order position, style, content |
| Diff.CompareCanvasStatesExhaustive | lib/version-control-manager.ts:123-128 | for every key both snapshots carry, each kind of difference between its two objects is reported, and only then |
| Diff.OneSidedObjectsIgnored | lib/version-control-manager.ts:124-125 | an object keyed in only one snapshot produces no conflict |
| Diff.SelfComparisonEmpty | lib/version-control-manager.ts:118-132 | a snapshot compared with itself has no conflicts |
| Diff.MergeSnapshots | lib/version-control-manager.ts:208-222 | the merge has A's length and keys, and each position holds what `MergedObject` prescribes |
| Diff.ApplyResolutionsSpec | lib/version-control-manager.ts:212-222 | the loop invariant: after any prefix of the resolutions, the working copy is what `MergedObject` prescribes for that prefix |
| Diff.MergeWithoutKeepBIsBase | lib/version-control-manager.ts:216 | with no `keep_b` for an object B has, the merge is A unchanged (`keep_a` and `manual` do nothing) |
| Diff.MergeLeavesUnmentionedObjects | lib/version-control-manager.ts:212-222 | an object no `keep_b` names keeps A's value |
| Diff.MergeTakesB | lib/version-control-manager.ts:216-220 | a `keep_b` for a key both sides carry puts B's object where A first has that key |
| Repository.BranchHeadsResolve | lib/version-control.ts:68-71 | in a valid store every branch read back, the default included, has an empty or resolvable head |
| Repository.ActiveHeadResolves | lib/version-control-manager.ts:24-29 | in a valid store the active head is empty or a stored commit |
| Repository.EmptyStoreValid | lib/version-control.ts:59-71 | a store never written is valid |
| Repository.AppendWellFormed | lib/version-control-manager.ts:46-47 | appending a commit with a fresh non-empty id whose parents are stored keeps ids distinct and parents earlier |
| Repository.CreateCommitPreservesValid | lib/version-control-manager.ts:23-55 | committing with a fresh id keeps the store valid |
| Repository.CreateBranchPreservesValid | lib/version-control-manager.ts:57-73 | creating a branch from an empty or stored commit id keeps the store valid |
| Repository.SwitchToBranchPreservesValid | lib/version-control-manager.ts:75-85 | switching branches keeps the store valid |
| Repository.RecordMergeCommitPreservesValid | lib/version-control-manager.ts:184-193 | recording a merge commit with a fresh id and stored parents keeps the store valid |
| Repository.MergeOfHeadsPreservesValid | lib/version-control-manager.ts:178-193 | merging two branch heads that resolve keeps the store valid |
| Repository.MergeBranchesPreservesValid | lib/version-control-manager.ts:171-196 | when both branch heads resolve to stored commits, the merge succeeds and, with a fresh id, keeps the store valid |
| Repository.MergeSucceedsIffHeadsResolve | lib/version-control-manager.ts:173-203 | in a valid store a merge fails (branch or commit not found) exactly when either branch head does not resolve to a stored commit |
| Repository.ParentsPrecede | lib/version-control-manager.ts:29 | in a valid store every parent of a commit is stored before it, so the parent links are acyclic |
| DateUtils.BucketCounts | lib/date-utils.ts:5-11 | flooring in sequence equals flooring once by the unit's length, and each count is positive exactly when the elapsed time reaches a unit |
| DateUtils.Bucket | lib/date-utils.ts:15-29 | the unit shown is the largest one the elapsed time reaches, seconds otherwise; the count is the floored quotient and is at least one except for seconds |
| DateUtils.FormatDistanceToNow | lib/date-utils.ts:1-32 | the text ends in ` ago` exactly when the suffix is asked for; the text before any suffix is the decimal count chosen for `now - timestamp`, a space and the unit name, with `s` exactly when the count exceeds one, and reads back as that count and unit |
| DateUtils.SuffixAppendsAgo | lib/date-utils.ts:31 | the suffixed text is the unsuffixed text followed by ` ago` |
| DateUtils.RenderPlural | lib/date-utils.ts:16-28 | the text ends in `s` exactly when the count exceeds one |
| DateUtils.RenderNoSuffix | lib/date-utils.ts:16-28 | a rendered count and unit never ends in ` ago` by itself |
| DateUtils.UnitNameRoundTrip | lib/date-utils.ts:16-28 | each unit name, singular or plural, reads back as its unit |
| DateUtils.ParseRender | lib/date-utils.ts:15-29 | the rendered text determines the count and unit it was rendered from |
| CommitGraph.HeadBranch | components/version-control/draggable-commit-graph.tsx:84 | the first branch whose head is the commit, or none |
| CommitGraph.FirstParent | components/version-control/draggable-commit-graph.tsx:94 | the first commit in timestamp order that is a parent of the commit, or none |
| CommitGraph.LaneOrder | components/version-control/draggable-commit-graph.tsx:86-90 | branches get lanes at most once |
| CommitGraph.LaneLookupOrder | components/version-control/draggable-commit-graph.tsx:88-91 | the lane map gives a branch 300 times its position in the lane order, and nothing for a branch without a lane |
| CommitGraph.PlaceCommit | components/version-control/draggable-commit-graph.tsx:83-101 | one walk step gives a new head branch the next lane and computes the commit's lane offset |
| CommitGraph.BuildNodes | components/version-control/draggable-commit-graph.tsx:74-131 | one node per commit, node `i` being the one for the `i`-th commit in timestamp order |
| CommitGraph.PlaceNode | components/version-control/draggable-commit-graph.tsx:81-131 | the node of one commit, at `x = 400 i + 50` and `y` its lane offset plus 100, with its flags |
| CommitGraph.LaneOrderPrefix | components/version-control/draggable-commit-graph.tsx:87-90 | lanes, once given, keep their position for the rest of the walk |
| CommitGraph.HeadLane | components/version-control/draggable-commit-graph.tsx:84-91 | a head commit's lane is its branch's position in the order branches are first met |
| CommitGraph.HeadLanesSeparate | components/version-control/draggable-commit-graph.tsx:84-91 | head commits share a row exactly when they are heads of the same branch |
| CommitGraph.NodeInLane | components/version-control/draggable-commit-graph.tsx:113 | every node's `y` is 100 plus a non-negative multiple of 300 |
| CommitGraph.NodesInTimeOrder | components/version-control/draggable-commit-graph.tsx:74-112 | nodes run left to right in non-decreasing timestamp order |
| CommitGraph.EveryCommitHasNode | components/version-control/draggable-commit-graph.tsx:81 | every commit has a node |
| CommitGraph.EdgeFor | components/version-control/draggable-commit-graph.tsx:138-157 | an edge runs from the parent to the commit, with id `parent-commit`, flagged with the commit's resolutions and merge status; red iff the commit has resolutions, green iff merged without them, grey otherwise; width 3 for either, else 2 |
| CommitGraph.EdgesOf | components/version-control/draggable-commit-graph.tsx:137-159 | one edge per parent id, in order |
| CommitGraph.FlowEdges | components/version-control/draggable-commit-graph.tsx:134-160 | exactly one edge per (commit, parent id) pair, including parents not in the list, and no other edge |
| CommitGraph.DeletableHasNoOutgoingEdge | components/version-control/draggable-commit-graph.tsx:106 | a commit offered for deletion is the source of no edge |
| CommitGraph.BuildGraph | components/version-control/draggable-commit-graph.tsx:68-162 | no commits give no nodes and no edges; otherwise the nodes and edges above |
| BranchManager.HandleCreateBranch | components/version-control/branch-manager.tsx:39-45 | a request is made exactly when the name is not all whitespace; it carries the trimmed name and clears and closes the dialog; otherwise nothing changes |
| BranchManager.HandleMerge | components/version-control/branch-manager.tsx:47-54 | a request is made exactly when both sides are selected; it carries them and clears both; otherwise nothing changes |
| BranchManager.TargetOptions | components/version-control/branch-manager.tsx:199 | the target options are exactly the branches other than the source |
| BranchManager.TargetOptionsAppend | components/version-control/branch-manager.tsx:199 | the filter keeps the branch list's order |
| BranchManager.TargetOptionsUnfiltered | components/version-control/branch-manager.tsx:199 | with no source among the branches, every branch is offered |
| BranchManager.CreateButtonMatchesHandler | components/version-control/branch-manager.tsx:161 | the create button is enabled exactly when its handler makes a request |
| BranchManager.CreateFiresOnce | components/version-control/branch-manager.tsx:39-45 | confirming twice makes at most one request |
| BranchManager.EnabledMergeFires | components/version-control/branch-manager.tsx:225 | when the merge button is enabled, the handler requests a merge of two different branches |
| BranchManager.MergeHandlerAcceptsSameBranch | components/version-control/branch-manager.tsx:47-54 | the handler alone would request a merge of a branch into itself; only the disabled button prevents it |
| BranchManager.MergeFiresOnce | components/version-control/branch-manager.tsx:47-54 | confirming twice makes at most one request |
| BranchManager.CurrentBranchHasNoActions | components/version-control/branch-manager.tsx:56-58 | the current branch offers neither switch nor delete, `main` is never deletable, and every deletable branch can be switched to |
| CommitModal.AddTag | components/version-control/commit-modal.tsx:26-31 | the tags grow by the trimmed input exactly when it is non-empty and new, and then the input is cleared; otherwise nothing changes; well-formed tags stay well formed |
| CommitModal.AppendKeepsWellFormed | components/version-control/commit-modal.tsx:27-28 | appending a non-empty trimmed new tag keeps the list distinct, non-empty and trimmed |
| CommitModal.Without | components/version-control/commit-modal.tsx:34 | the filter drops every copy of the tag and keeps every other copy |
| CommitModal.WithoutMembers | components/version-control/commit-modal.tsx:34 | a tag remains exactly when it was present and is not the one removed |
| CommitModal.WithoutKeepsDistinct | components/version-control/commit-modal.tsx:34 | filtering a list without duplicates leaves none |
| CommitModal.WithoutAppend | components/version-control/commit-modal.tsx:34 | filtering commutes with concatenation, so the remaining tags keep their order |
| CommitModal.WithoutAbsent | components/version-control/commit-modal.tsx:34 | removing an absent tag changes nothing |
| CommitModal.RemoveTag | components/version-control/commit-modal.tsx:33-35 | the tag is gone, every other tag keeps its presence and count, the message and input are untouched, and well-formed tags stay well formed |
| CommitModal.Submit | components/version-control/commit-modal.tsx:37-44 | a commit is handed over exactly when the message is not all whitespace; it carries the trimmed message and the tags, and the dialog is cleared; otherwise nothing changes |
| CommitModal.MessageKeyDown | components/version-control/commit-modal.tsx:46-50 | a commit is handed over exactly on Ctrl+Enter with a message that is not all whitespace; it carries the trimmed message and the tags, and the dialog clears; otherwise the dialog is unchanged |
| CommitModal.TagKeyDown | components/version-control/commit-modal.tsx:84-89 | the dialog changes exactly on Enter with a non-blank input whose trim is not yet a tag; the trim is then appended and the box cleared; the message never changes |
| CommitModal.ApplyKeepsTagsWellFormed | components/version-control/commit-modal.tsx:26-50 | every dialog event keeps the tags well formed and submits only trimmed non-empty messages |
| CommitModal.RunKeepsTagsWellFormed | components/version-control/commit-modal.tsx:26-44 | after any sequence of events the tags are distinct, non-empty and trimmed, and every submission carries a trimmed non-empty message |
| CommitModal.AddThenRemove | components/version-control/commit-modal.tsx:26-35 | adding a new tag and then removing it restores the tag list |
| CommitModal.AddTagIdempotent | components/version-control/commit-modal.tsx:26-31 | adding the same input twice adds it once |
| CommitModal.SubmitButtonMatchesHandler | components/version-control/commit-modal.tsx:115 | when nothing is loading, the commit button is enabled exactly when its handler submits |
| CommitModal.ShortcutIgnoresLoading | components/version-control/commit-modal.tsx:46-50 | Ctrl+Enter submits while a commit is in flight, although the button is disabled then |

## Left out

- Canvas library calls (`toJSON`, `loadFromJSON`, `toDataURL`, `getObjects`, `renderAll`) are foreign code. A snapshot is a structured `seq<SceneObject>`, the live scene is a value in the `Workspace`, and the thumbnail is a parameter.
- Scene restore is modelled as a synchronous assignment. In the source it finishes in a callback, so whether a merge commit captures the merged scene rather than the previous one is an assumption here, not a proved property.
- `async`/`await` in `createCommit` and `mergeBranches` exists only for the thumbnail, so the operations are modelled as sequential.
- `localStorage`, `JSON.stringify` and `JSON.parse` are replaced by the in-memory `Store` of three optional records. Malformed stored JSON is not modelled.
- `Date.now()` and `Math.random()` become the `now`, `clock`, `suffix` and `id` parameters. Freshness of ids is a precondition where validity depends on it. Id collisions, which the source leaves to chance, are not modelled.
- Coordinates are `int`, not floating-point numbers. They are only compared for equality, so nothing depends on float arithmetic.
- `fill` and `stroke` are optional strings. Gradient and pattern objects, which JavaScript `!==` would always report as different, are not modelled.
- The commit author is the fixed `Designer` record, and the avatar is always absent.
- `getBranches` on the manager only forwards to the storage port, so it is modelled by `VersionControl.GetBranches`.
- A commit's two writes (commits, then branches) and the merge's commit-then-patch are not atomic in the source. The model returns the final state and does not model a failure between writes.
- components/version-control/commit-graph.tsx is not rendered by the panel. What it adds is pan and zoom with float clamping, so it is not part of this model.
- The panel's handlers for merge, conflict, commit deletion and branch deletion are unfinished placeholders, so they are not modelled. The same goes for sample-data generation and every presentational component (commit node, custom edge, timeline, dialogs, toolbar, side panel, page).
- Node drag, selection state and React Flow callbacks are left out. The selected id is a parameter and `isSelected` is modelled.
- CommitGraph.LaneOrder: its contract states only that lanes are handed out once. Which lane each commit gets is stated by `HeadLane`, `HeadLanesSeparate` and `NodeInLane`, and by `BuildNodes` against the reference `NodeAt`.
