# Eg-walker: a verified model

This project models the merge engine of the eg-walker paper's repository and proves what its
pieces promise. It has five parts.

**Replay of an operation log** (`eg-walker-reference/src/index.ts`). A log holds positional edits,
each at a position in the document as its author saw it, over a graph of versions. A replay walks
the log with a list of items that can be looked at from two versions at once: where the walk stands,
and where everything has been merged. `Items`, `Replay` and `ReplayRun` give the replay on plain
values; `EditContext`, `Traverse` and `BranchMerge` are the imperative code, with item objects that
the list and the index share, and refine it. `Intent`, `Ordered`, `ConcurrentRuns` and `MergeMeaning`
say what a replay means. `MergeSimulation` and `MergeReplay` prove that placeholders do the work of the
document they stand for, on any graph, and `Documents` that a document kept up to date by edits and
merges is always what a fresh checkout gives. `TreeOrder` defines the order that items are meant to
have, from what was inserted beside what and the IDs alone, and `TreeInsert` proves that `integrate`
puts each item at its place in it. From that, `Twins` and `Convergence` prove that logs with the same
operations check out to the same text, stored in any order and with anything concurrent; `Replicas`
that any number of replicas that edit and merge at will converge without an error; and `Interleaving`
that what one author types, forwards or backwards, is not mixed with what others type concurrently.

**The run-length encoded causal graph** (`eg-walker-reference/src/causal-graph.ts`). `RleGraph` ties
the entries to one parent list per version; `Dag` defines `Hist(f)`, the versions that a frontier
`f` has seen, and every traversal (`Diff`, `Dominators`, `Conflicting`) is stated against it.
`AgentIndex`, `GraphStore` and `GrowingGraph` are the growing graph with its two indexes and its
heads; `Summaries` and `OplogMerge` exchange operations between replicas. `Frontiers` moves a
frontier forwards and backwards, as the Rust library does.

**Operational transformation** (`tools/ot-bench`). `OtUnits` and `OtLists` say what operations do
and how they are rewritten, character by character; `OtText` and `OtOps` are the component lists and
their loops; `OtGraph` is the memoised rewriting over a graph, and `OtBranches` proves what it makes of
two branches of any length.

**The binary form of a causal graph** (`tools/diamond-types/src/encoding`). `Varint` is the integer
format. `WireFormat` says, on values, what is written for an entry and what a reader makes of the
bytes, and `WireCompact` when parents, names and distances are left out; `WireRoundTrip`, `WireMerge`
and `WireUnion` prove that a message with what a reader lacks
makes the reader's graph the union. `WireMaps`, `WireGraph`, `WireWriter` and `WireReader` are the
imperative code, and `WireSync` puts the two sides together.

**Run-length list operations** (`tools/diamond-types/src/list/op_metrics.rs`). `ListRuns` says which
single-character operations a run stands for and what splitting and joining do to them.

How the model is built:

- A version (LV) is a `nat`, and parents have smaller LVs. `WellFormed` says so, and the code relies on it.
- A thrown error or a failed assertion of the source is a `None` or an `ok` that is false. Where the
  model proves that an assertion never fails, the method asserts it. Replays are proved to fail
  exactly where some operation's position lies outside the document its author saw.
- Some steps that the source writes inline are methods of their own here, to keep each proof small.
- The priority queue of the `priorityqueuejs` package is the multiset it holds, or a list with a
  comparator where the order of equal elements could matter; `binary-search` is written out.
- Placeholders have IDs from `PLACEHOLDER_BASE` (1e12) on, so a log has at most that many operations.
- A `RleVec` of the Rust library is its list of runs, sorted by key; the IDs by version and the graph
  are kept version by version, and `iter_range` with the merger yields the longest entries there are.
- A panic while a message is read (an index out of range, a refused agent name) is a failed read.
- Document content is any type, and the OT documents are sequences of characters (code points).

What the code does and its documentation does not say:

- A merge into a branch fills the context with more placeholders than the document is long. A
  position past the end of the document then lands in the surplus instead of failing, so
  `mergeChangesIntoBranch` does not reject every operation that `checkout` rejects;
  `MergeMeaning.MergeAcceptsMore` is a log of three operations where it does not. On a linear log
  `LinearMergeAccepts` says exactly when a merge succeeds, `SurplusAccepts` that for one further
  operation; on any graph `MergeReplay.MergeFitsExactly` says exactly when the plain replay succeeds, in
  terms of the positions that the merge sees. The other replay theorems speak of positions in the real
  document (`InRealRange`).
- `findConflicting` returns the highest version that everything visited builds on. That need not be the
  whole set of common ancestors, and the merge replays what it leaves out (flag `Shared`) with the conflict.
- The header of `varint.rs` says that each number has exactly one encoding. It has two from `ENC_8`
  on (`Varint.TwoEncodings`), since `ENC_8_U64` is too small for the 56 bits of the 8-byte form, and
  the 9-byte form can overflow; `Varint.CanonicalExactly` says which encodings are the writer's own.

## Model

| member | source | states |
|---|---|---|
| `Convergence.CheckoutsConverge` | eg-walker-reference/src/index.ts:519-535 | Convergence: two logs that hold the same operations, stored in any two orders and with anything concurrent, either both check out, to the same text, or neither does |
| `Convergence.UnionChecksOut` | eg-walker-reference/src/index.ts:519-535 | A log whose operations all come from two logs that check out, and that agree with it, checks out: receiving operations never puts a position out of range |
| `Replicas.SameKnowledge` | eg-walker-reference/src/index.ts:519-539 | Logs that know the same operations and parents by ID, as `mergeOplogInto` makes them, check out to the same text |
| `Replicas.StoresConverge` | eg-walker-reference/src/index.ts:512-535 | Two stored logs with the same facts, which is where merging both ways leads, check out to the same text |
| `Replicas.PullSucceeds` | eg-walker-reference/test/fuzzer.ts:73-83 | Among replicas that are up to date and agree, merging from another one throws no error and gives the checkout of the merged log |
| `Replicas.EveryHistorySettles` | eg-walker-reference/test/fuzzer.ts:98-159 | After any sequence of edits that fit and merges, among any number of documents, every document's log checks out to its content and no two logs contradict each other |
| `Replicas.SameKnowledgeSameContent` | eg-walker-reference/test/fuzzer.ts:98-159 | Strong eventual consistency: at any time two documents that know the same have the same content |
| `Replicas.MergedBothWays` | eg-walker-reference/test/fuzzer.ts:141-151 | Two documents that merge from each other in turn end with the same content |
| `Interleaving.ReplayInTreeOrder` | eg-walker-reference/src/index.ts:286-328 | After replaying any part of any log the items are in the order of the tree, which is defined from left origins, right parents and IDs, without the scan |
| `Interleaving.OriginsMean` | eg-walker-reference/src/index.ts:374-394 | An insert's left origin is the item its author saw before the position, and its right parent is the first of the items its author had seen that were inserted behind the same one, or none if there is no such item |
| `Interleaving.TypedBehind` | eg-walker-reference/src/index.ts:286-328 | In every checkout, an insert typed straight after another one comes behind it, and everything in between was inserted by somebody who had seen the first |
| `Interleaving.TypedInFront` | eg-walker-reference/src/index.ts:286-328 | The same for typing backwards: the later insert comes in front, and everything in between was inserted by somebody who had seen the earlier one |
| `Interleaving.SamePlaceById` | eg-walker-reference/src/index.ts:315-316 | Two inserts at the same place by authors who had seen the same are ordered by their IDs, whatever else the log holds |
| `TreeInsert.InsertKeepsTree` | eg-walker-reference/src/index.ts:363-405 | A list of items in the order of its tree is in the order of its tree after an insert |
| `TreeOrder.NestedIsTreeOrder` | eg-walker-reference/src/index.ts:264-285 | Items whose subtrees are nested, with siblings by right parent and then by ID, are exactly in the recursively defined order of the tree |
| `ListLog.RawLessMeans` | eg-walker-reference/src/causal-graph.ts:256-260 | IDs of one agent compare by sequence number; otherwise the first differing character of the agents' names decides, and a proper prefix is smaller |
| `ConcurrentRuns.ConcurrentTyping` | eg-walker-reference/src/index.ts:286-328 | Convergence and non-interleaving: for any number of authors who each type a run of any length at one place of a common version, every order of the log checks out to the common text with the runs unbroken and in the order of their IDs |
| `ConcurrentRuns.ReplicasConverge` | eg-walker-reference/src/index.ts:519-535 | Two replicas that hold the same common history and the same concurrent runs, received in any two orders, check out the same text |
| `ConcurrentRuns.IntegrateHead` | eg-walker-reference/src/index.ts:286-328 | The head of a run is integrated after every already placed run with a smaller ID and before every one with a larger ID |
| `ConcurrentRuns.IntegrateFollower` | eg-walker-reference/src/index.ts:286-328 | A later operation of a run is integrated right after its predecessor, whatever has been replayed of the other runs |
| `ConcurrentRuns.PrefixReplay` | eg-walker-reference/src/index.ts:474-507 | A replay of the first n operations depends on nothing that is stored after them |
| `Replay.StateWithout` | eg-walker-reference/src/index.ts:191-225 | An item's state at a version is "absent" exactly when its insert is not in the version's history, and otherwise the number of deletes there: taking one operation out lowers it by one for the item it affects and for no other |
| `Replay.RetreatStep` | eg-walker-reference/src/index.ts:210-225 | Retreating over an operation that nothing else present builds on succeeds and shows every item as it is in the smaller history |
| `Replay.AdvanceStep` | eg-walker-reference/src/index.ts:191-208 | Advancing over an operation whose parents are present succeeds and shows every item as it is in the larger history |
| `Replay.AppliesIffInRange` | eg-walker-reference/src/index.ts:330-406 | Applying an operation at its parents fails exactly when its position is outside the document its author saw |
| `Replay.IntegrateSucceeds` | eg-walker-reference/src/index.ts:286-328 | The scan of `integrate` throws none of its errors and stops between the cursor and the next settled item |
| `Replay.DeleteStep` | eg-walker-reference/src/index.ts:334-362 | A delete marks the item it finds in both views, changes nothing else, and keeps the replay invariant |
| `Replay.InsertStep` | eg-walker-reference/src/index.ts:363-405 | An insert adds one item that is visible in both views, changes no other item's state, and keeps the replay invariant: one item per replayed insert, a target for every replayed delete |
| `Replay.OriginsOrderedWith` | eg-walker-reference/src/index.ts:374-401 | A new item between its left origin and its right parent keeps every item between its own |
| `Intent.AppliedAsAsked` | eg-walker-reference/src/index.ts:330-406 | Intent: among the items visible at the operation's parents, applying it is a plain splice at its own position |
| `Intent.EditMatchesItems` | eg-walker-reference/src/index.ts:352-404 | The edit made to the snapshot is exactly the change to the items that survive in the end |
| `Intent.StepKeepsSync` | eg-walker-reference/src/index.ts:330-406 | After each operation the snapshot is the text of the surviving items in item order, ballast placeholders aside |
| `Intent.PlacedBeforeBallast` | eg-walker-reference/src/index.ts:286-328 | An insert whose position is in the real document is never placed among the surplus placeholders |
| `ReplayRun.RangeKeeps` | eg-walker-reference/src/index.ts:454-508 | The replay invariant holds after any run of operations |
| `ReplayRun.RangeKeepsSync` | eg-walker-reference/src/index.ts:454-508 | The snapshot is in step with the items after any run of operations |
| `ReplayRun.SucceedsInRange` | eg-walker-reference/src/index.ts:454-508 | A replay succeeds exactly when every position is inside the document its author saw |
| `ReplayRun.CheckoutInSync` | eg-walker-reference/src/index.ts:519-535 | The text of a checkout is the content of exactly those inserts that no operation deletes, in item order |
| `Ordered.OrderedStep` | eg-walker-reference/src/index.ts:330-406 | An operation whose author had seen everything replayed so far is a plain splice of the snapshot, and fails exactly when it does not fit |
| `Ordered.SequentialReplay` | eg-walker-reference/src/index.ts:454-508 | A range of operations that each saw everything before them replays to the fold of plain splices |
| `Ordered.LinearCheckout` | eg-walker-reference/src/index.ts:519-535 | On a linear log checkout succeeds exactly when the fold of plain splices stays in range, and gives the fold |
| `EditContext.Context.Advance1` | eg-walker-reference/src/index.ts:191-208 | The in-place step on shared item objects is the step on values, and fails exactly when an assertion of the source does |
| `EditContext.Context.Retreat1` | eg-walker-reference/src/index.ts:210-225 | The in-place step on shared item objects is the step on values, and fails exactly when an assertion of the source does |
| `EditContext.Context.FindByCurPos` | eg-walker-reference/src/index.ts:235-251 | Finds the place just after the pos-th visible item, with the number of surviving items before it; fails exactly when there are too few |
| `EditContext.Context.Integrate` | eg-walker-reference/src/index.ts:286-328 | The scan loop ends where the recursive rule says, which is the item's place in the tree (`TreeInsert.InsertKeepsTree`), with the matching snapshot position |
| `EditContext.Context.FindTarget` | eg-walker-reference/src/index.ts:336-349 | Finds the visible item with pos visible ones before it, with its snapshot position; fails exactly when there is none |
| `EditContext.Context.AddItem` | eg-walker-reference/src/index.ts:396-401 | Splices a new item into the list and the index, which go on holding the same objects |
| `EditContext.Context.Apply1` | eg-walker-reference/src/index.ts:330-406 | The in-place apply is the apply on values, for the items, the delete targets and the snapshot |
| `Items.CursorUnique` | eg-walker-reference/src/index.ts:235-251 | The cursor is determined by the number of visible items before it and the visible item it follows |
| `Traverse.RetreatAll` | eg-walker-reference/src/index.ts:482-490 | Retreating over the ranges in descending order never fails an assertion and ends at the common history |
| `Traverse.AdvanceAll` | eg-walker-reference/src/index.ts:492-497 | Advancing over the ranges in ascending order never fails an assertion and ends at the operation's parents |
| `Traverse.MoveTo` | eg-walker-reference/src/index.ts:474-497 | Whatever version the context stands at, it is moved to the parents of the next entry without a failed assertion |
| `Traverse.TraverseAndApply` | eg-walker-reference/src/index.ts:454-508 | Walking an entry list of any shape refines the replay of each operation at its own parents, and fails exactly where that does |
| `Traverse.Checkout` | eg-walker-reference/src/index.ts:519-535 | A checkout returns the replayed text and the heads, and fails exactly where the replay of the log does |
| `Traverse.ReplaySplit` | eg-walker-reference/src/index.ts:473-507 | Replaying up to a point and then on from there is replaying the whole range |
| `BranchMerge.SplitVisits` | eg-walker-reference/src/index.ts:580-593 | The visited ranges end up, ascending and joined, as what the branch has and what is new to it |
| `BranchMerge.AddPlaceholders` | eg-walker-reference/src/index.ts:606-624 | The filled context shows the placeholder document at any version |
| `BranchMerge.TraverseRanges` | eg-walker-reference/src/index.ts:627-639 | Walking the listed ranges replays the members of the set they stand for, each once, in ascending order |
| `BranchMerge.SplitMeans` | eg-walker-reference/src/index.ts:580-591 | What was visited as B is the merged history without the branch's; what was visited otherwise is the branch's history above the base |
| `BranchMerge.MergeReady` | eg-walker-reference/src/index.ts:627-639 | The conflicting operations and then the new ones can be replayed on the placeholders: none twice, every parent present, all above the base |
| `BranchMerge.MergeChangesIntoBranch` | eg-walker-reference/src/index.ts:553-644 | The merge replays the conflict without the snapshot and each new operation on the snapshot once; the version becomes the sorted dominators of both versions, whose history is the union |
| `MergeMeaning.MergeComplete` | eg-walker-reference/src/index.ts:553-644 | After a merge exactly the operations of the two histories above the base have been replayed |
| `MergeMeaning.EnoughPlaceholders` | eg-walker-reference/src/index.ts:606-624 | The placeholders always suffice for the document at the base |
| `MergeMeaning.MergeInSync` | eg-walker-reference/src/index.ts:553-644 | A merge whose operations fit carries on from the branch's text to the text of the surviving items, as if everything above the base had been replayed on the base document |
| `MergeMeaning.EmptyMergeIsCheckout` | eg-walker-reference/src/index.ts:553-644 | Merging everything into an empty branch is a checkout, for any graph |
| `MergeMeaning.LinearMerge` | eg-walker-reference/src/index.ts:606-639 | On a linear log, merging the rest into a branch at any prefix version, through any base and its placeholders, folds the remaining operations onto the branch's text |
| `MergeMeaning.SurplusAccepts` | eg-walker-reference/src/index.ts:606-639 | Merging the next operation of a linear log accepts exactly the positions up to the number of placeholders, where a plain edit stops at the end of the document |
| `MergeMeaning.LinearMergeAccepts` | eg-walker-reference/src/index.ts:606-639 | On a linear log a merge of any number of operations, into a branch at any version and through any base, succeeds exactly when they fit a text as long as the placeholders are many, whatever its characters |
| `MergeMeaning.MergeAcceptsMore` | eg-walker-reference/src/index.ts:606-639 | A log that a checkout rejects and a merge accepts: an insert past the end of a document that has become empty |
| `MergeReplay.MergeIsReplay` | eg-walker-reference/src/index.ts:553-644 | On any graph, if the branch's text comes from replaying its history and the new operations can be replayed after that, the merge through placeholders succeeds and gives the text of that replay |
| `MergeReplay.MergeFitsExactly` | eg-walker-reference/src/index.ts:606-639 | That replay succeeds exactly when, in the merge, no new operation reaches the surplus placeholders, those beyond the length of the document at the base |
| `MergeReplay.MergeRenders` | eg-walker-reference/src/index.ts:553-644 | The merged text is that of the surviving items, with the placeholders holding the text at the base; what `MergeInSync` assumes of the branch's text is proved |
| `MergeReplay.MergeCatchesUp` | eg-walker-reference/src/index.ts:553-572 | Merging what was appended to the log into a branch at its earlier end gives what regenerating the document from scratch gives, whatever is concurrent with what |
| `MergeSimulation.SameRight` | eg-walker-reference/src/index.ts:374-394 | An insert gets corresponding right parents on the base document and on the placeholders, deleted items of the base in between or not |
| `MergeSimulation.SameScan` | eg-walker-reference/src/index.ts:286-328 | The scan of `integrate` ends at corresponding items on the base document and on the placeholders |
| `MergeSimulation.InsertOnBoth` | eg-walker-reference/src/index.ts:363-405 | An insert that can be replayed on the base document can be replayed on the placeholders, with the same edit, and the items go on corresponding |
| `MergeMeaning.BaseDetermined` | eg-walker-reference/src/causal-graph.ts:767-880 | The highest base is unique up to its history, so the call determines how far back a merge goes |
| `MergeMeaning.LinearBase` | eg-walker-reference/src/causal-graph.ts:837-838 | On a linear log the base of two versions, either way round, is the earlier one: nothing below it is replayed |
| `Documents.EditChecks` | eg-walker-reference/test/fuzzer.ts:31-56 | After a local edit of an up-to-date document a checkout of its log succeeds exactly when the edit fits the content, and gives the edited content |
| `Documents.ReceiveChecks` | eg-walker-reference/test/fuzzer.ts:73-83 | Merging received operations into an up-to-date document throws no error and gives the checkout of the whole log, whenever there is one |
| `Documents.EveryRunChecks` | eg-walker-reference/test/fuzzer.ts:58-91 | After any sequence of local edits and merges, the content of a document is what a fresh checkout of its log gives |
| `RleGraph.ExpandAt` | eg-walker-reference/src/causal-graph.ts:308-312 | Inside an entry, every version but the first has its predecessor as only parent |
| `RleGraph.FindEntryContaining` | eg-walker-reference/src/causal-graph.ts:293-306 | Bisection finds the entry that holds a version |
| `RleGraph.RunReaches` | eg-walker-reference/src/causal-graph.ts:308-312 | Inside an entry a version has seen every earlier one, and below that what the earlier one has seen |
| `RleGraph.IterVersionsBetween` | eg-walker-reference/src/causal-graph.ts:390-426 | The yielded entries cut the range into consecutive runs, each with the ID and the parents of its first version |
| `Diff.Diff` | eg-walker-reference/src/causal-graph.ts:573-655 | Despite its early exit, the two results are exactly the versions in one history and not in the other, as ascending ranges that do not touch |
| `Diff.QueueSize` | eg-walker-reference/src/causal-graph.ts:580-617 | `numShared` never exceeds the queue's size, and equals it exactly when only shared versions are left |
| `Diff.DrainEntry` | eg-walker-reference/src/causal-graph.ts:617-643 | Consuming the queued versions of one entry marks each stretch with the side it belongs to; no range ends before it starts |
| `Dominators.VersionContainsLV` | eg-walker-reference/src/causal-graph.ts:659-687 | Answers exactly whether the target is in the frontier's history |
| `Dominators.FindDominators2` | eg-walker-reference/src/causal-graph.ts:697-752 | Every listed version is reported as often as it is listed, in descending order, and as a dominator exactly once if no other listed version has seen it; the fast path for two gives the same |
| `Dominators.FindDominators` | eg-walker-reference/src/causal-graph.ts:754-761 | The result is a sorted antichain, consists of the dominators, and has the same history as the input |
| `Conflicting.FindConflicting` | eg-walker-reference/src/causal-graph.ts:767-880 | Terminates and visits, disjointly and in descending order, exactly the versions of one side, of the other, and the shared ones above the base; every visited version has seen the whole base. The base is the highest there is: as long as no parent list holds a version that another version in it has seen, every frontier common to both sides, such that each version of either side is in its history or has seen all of it, lies in the history of the base |
| `Conflicting.PeekTop` | eg-walker-reference/src/causal-graph.ts:782-800 | The queue yields a point that no other precedes |
| `AgentIndex.InsertRleList` | eg-walker-reference/src/causal-graph.ts:71-89 | The list stays sorted, disjoint and packed and maps exactly the new IDs in addition; "item already exists" cannot happen for new IDs |
| `AgentIndex.Locate` | eg-walker-reference/src/causal-graph.ts:160-171 | Bisection finds the run that holds a sequence number, or the gap it falls into |
| `AgentIndex.JoinsExactly` | eg-walker-reference/src/causal-graph.ts:150-158 | Two runs of an agent are joined exactly when a single run maps the same sequence numbers to the same versions |
| `GraphStore.JoinsExactly` | eg-walker-reference/src/causal-graph.ts:137-148 | Two entries are joined exactly when a single entry stands for the versions of both, with their parents and IDs |
| `GraphStore.PackedPush` | eg-walker-reference/src/causal-graph.ts:63-67 | Pushing keeps the entries packed: no two neighbours could be joined |
| `GraphStore.PushMeans` | eg-walker-reference/src/causal-graph.ts:137-148 | Pushing an entry, joined to the last one or not, adds exactly its versions and its IDs |
| `GrowingGraph.CausalGraph.FindClientEntryTrimmed` | eg-walker-reference/src/causal-graph.ts:178-188 | Finds the rest of the run that holds an ID, and nothing exactly when the ID is not known |
| `GrowingGraph.CausalGraph.TrimKnown` | eg-walker-reference/src/causal-graph.ts:214-230 | Trims exactly the known prefix of a span and keeps the parents of what is left right |
| `GrowingGraph.CausalGraph.Add` | eg-walker-reference/src/causal-graph.ts:211-254 | Adds only the unknown suffix of a span, each version on the one before; a known span changes nothing; entries, index and heads go on describing the same versions |
| `GrowingGraph.HeadsAdvance` | eg-walker-reference/src/causal-graph.ts:108-117 | The heads stay exactly the versions nobody builds on, sorted |
| `GrowingGraph.HeadsReachAll` | eg-walker-reference/src/causal-graph.ts:46-48 | The heads have every version in their history |
| `Summaries.SummarizeVersion` | eg-walker-reference/src/causal-graph.ts:356-370 | A summary lists exactly the known IDs |
| `Summaries.IntersectRange` | eg-walker-reference/src/causal-graph.ts:474-509 | A summary range is split, in order and without gaps, into runs known at consecutive versions and runs not known at all |
| `Summaries.PushLastVersions` | eg-walker-reference/src/causal-graph.ts:534-542 | The last version of each run between two versions reaches everything between them |
| `Summaries.IntersectWithSummary` | eg-walker-reference/src/causal-graph.ts:529-551 | The history of the common version is the least one that has every version known on both sides, and so exactly those if the summary leaves out no ancestor |
| `OplogMerge.SerializeDiff` | eg-walker-reference/src/causal-graph.ts:920-944 | The entries written out describe exactly the listed versions, in order, with the IDs of their parents |
| `OplogMerge.AddRaw` | eg-walker-reference/src/causal-graph.ts:199-206 | Adding a run by ID adds what is not yet known of it, on the parents named or on the known part, and fails exactly when a parent is not known |
| `OplogMerge.MergePartialVersions` | eg-walker-reference/src/causal-graph.ts:952-959 | Adding what was written out never fails, and gives each new version the parents, by ID, that it has in the source |
| `OplogMerge.RawToLvList` | eg-walker-reference/src/causal-graph.ts:341-343 | Gives back the versions of a list of IDs, and fails exactly when one is not known |
| `OplogMerge.MissingRanges` | eg-walker-reference/src/index.ts:109-114 | The ranges to copy are exactly the versions whose IDs the destination lacks, and their parents are known there or copied first |
| `OplogMerge.MergeOplogInto` | eg-walker-reference/src/index.ts:108-126 | Set union: the destination ends with exactly the IDs of both logs, each with its operation and its parents by ID; what it had keeps its LVs; one operation per version; merging what is known changes nothing |
| `OplogMerge.MergeBothWays` | eg-walker-reference/src/index.ts:108-126 | Merging two logs each into the other gives the same IDs with the same operations and parents on both sides |
| `Frontiers.FrontierUnique` | tools/diamond-types/src/frontier.rs:290-341 | A frontier is determined by its history |
| `Frontiers.AdvancedFrontier` | tools/diamond-types/src/frontier.rs:251-279 | A run on top of a frontier, in place of those members that are its parents, gives a frontier again |
| `Frontiers.Frontier.AdvanceByKnownRun` | tools/diamond-types/src/frontier.rs:251-279 | Each of the three branches leaves a sorted antichain with the run added to its history |
| `Frontiers.Frontier.Advance` | tools/diamond-types/src/frontier.rs:199-214 | Over any number of transactions the frontier gains exactly the range |
| `Frontiers.Frontier.Retreat` | tools/diamond-types/src/frontier.rs:290-341 | Over any number of transactions the frontier loses exactly the range and stays a sorted antichain |
| `Frontiers.AdvanceAndRetreat` | tools/diamond-types/src/frontier.rs:199-341 | Advancing over a range and retreating over it gives the frontier back |
| `OtUnits.Converges` | tools/ot-bench/src/ot_text.rs:262-305 | TP1: two concurrent operations, each followed by the other rewritten, fit and give the same document |
| `OtUnits.TransformedConverges` | tools/ot-bench/src/ot_text.rs:255-260 | TP1 for operations as `transform2` returns them, trimmed |
| `OtUnits.ComposeMeans` | tools/ot-bench/src/ot_text.rs:308-349 | A composition fits wherever the two operations in turn do, and makes the same document |
| `OtUnits.LeftGoesFirst` | tools/ot-bench/src/ot_text.rs:262-305 | What `transform1` returns, applied after the other operation, makes the document that has, at every place, the left text and then the right text, and lacks each character that either deletes |
| `OtUnits.TypedTogether` | tools/ot-bench/src/ot_text.rs:290-296 | Of two texts typed at one place, the left one goes directly before the other |
| `OtLists.RowConverges` | tools/ot-bench/src/ot_text.rs:246-252 | Carrying one operation through a list gives one document both ways round |
| `OtLists.GridSymmetric` | tools/ot-bench/src/ot_text.rs:236-253 | The others, as they leave the grid of rewrites, are the other list rewritten the other way round |
| `OtLists.ListsConverge` | tools/ot-bench/src/ot_text.rs:236-253 | TP1 for lists: either list followed by the other rewritten gives the same document |
| `OtText.TextOp.Append` | tools/ot-bench/src/ot_text.rs:73-93 | Appending adds the component's meaning and leaves nothing empty and no two neighbours of one kind |
| `OtText.TextOp.Trim` | tools/ot-bench/src/ot_text.rs:96-100 | Trimming drops exactly the trailing skips, of any component list, and leaves a packed one canonical |
| `OtText.TextOpIterator.Next` | tools/ot-bench/src/ot_text.rs:183-213 | Yields the rest of the operation piece by piece, no piece larger than asked for, and skips for ever at the end |
| `OtText.ApplyPiece` | tools/ot-bench/src/main.rs:161-171 | What one component does to the rest of a document |
| `OtText.ApplyTo` | tools/ot-bench/src/main.rs:158-172 | Editing at a moving position makes the document the operation means |
| `OtText.RewriteOverSkip` | tools/ot-bench/src/ot_text.rs:270-276 | Against a run the other operation keeps, everything is copied |
| `OtText.RewriteOverDel` | tools/ot-bench/src/ot_text.rs:278-288 | Against a run the other operation deletes, only inserts survive |
| `OtText.RewriteOverIns` | tools/ot-bench/src/ot_text.rs:290-296 | Text the other operation inserted is skipped, after the left operation's own insert |
| `OtText.Transform1` | tools/ot-bench/src/ot_text.rs:262-305 | The loops on components rewrite as the rule on units does, whose law on documents is `OtUnits.LeftGoesFirst`, and the result is canonical |
| `OtText.Transform2` | tools/ot-bench/src/ot_text.rs:255-260 | Both operations rewritten against each other, with opposite sides |
| `OtOps.TransformList` | tools/ot-bench/src/ot_text.rs:236-253 | Rewriting a list in place gives the list that the grid of rewrites gives |
| `OtOps.Compose` | tools/ot-bench/src/ot_text.rs:308-349 | The loops on components compose as the rule on units does, and the result is canonical |
| `OtOps.ComposedMeans` | tools/ot-bench/src/ot_text.rs:308-349 | The composed and trimmed operation makes the document that the two in turn make |
| `OtOps.PackedUnique` | tools/ot-bench/src/ot_text.rs:73-93 | Components without empty or mergeable ones are determined by what they mean |
| `OtGraph.Diff` | tools/ot-bench/src/cg.rs:48-102 | The two lists are exactly the versions in one history only, ascending, despite the early exit |
| `OtGraph.AdvanceByMeans` | tools/ot-bench/src/frontier.rs:71-97 | Advancing by one version leaves a sorted antichain with that version added to its history |
| `OtGraph.BorrowOpsAtVersion` | tools/ot-bench/src/main.rs:184-232 | The memoised recursion terminates and gives what the plain recursion gives, which between two branches is the list rewriting (`OtBranches.BranchRewritten`); nothing is only in the parents' history, and the path ends exactly at the requested version |
| `OtGraph.DocAtVersion` | tools/ot-bench/src/main.rs:234-256 | The document is every operation below the version, rewritten and applied in order; it fails exactly when one does not fit |
| `OtGraph.SequentialDoc` | tools/ot-bench/src/main.rs:234-256 | Without concurrency the document is the operations applied as written |
| `OtGraph.ConcurrentPairConverges` | tools/ot-bench/src/main.rs:184-256 | Two concurrent operations that fit their document always merge, to the same document whichever is taken first |
| `OtBranches.BranchRewritten` | tools/ot-bench/src/main.rs:184-232 | Over any distance between two branches, an operation is rewritten past every operation of the other branch that separates the two versions, in turn |
| `OtBranches.BranchesConverge` | tools/ot-bench/src/main.rs:184-256 | Two branches of any length whose operations fit as written merge to the document of the one followed by the other rewritten against it as a list, and the same the other way round |
| `Varint.DecodePrefixVarintU64` | tools/diamond-types/src/encoding/varint.rs:149-183 | The decoding loop reads the number that its bytes stand for, and fails exactly when bytes are missing |
| `Varint.DecodeEncoded` | tools/diamond-types/src/encoding/varint.rs:88-183 | Reading undoes writing for every 64-bit number, whatever follows |
| `Varint.WritersAgree` | tools/diamond-types/src/encoding/varint.rs:45-141 | The 32-bit and the 64-bit writer make the same bytes |
| `Varint.TwoEncodings` | tools/diamond-types/src/encoding/varint.rs:30-37 | A number with two encodings, against the claim of the header |
| `Varint.CanonicalExactly` | tools/diamond-types/src/encoding/varint.rs:4-17 | A complete encoding is the writer's own exactly if it is no 8-byte one from `ENC_8` on and no 9-byte one that overflows |
| `WireCompact.EntryAnnounces` | tools/diamond-types/src/encoding/cg_entry.rs:15-89 | The bytes of an entry: its first number's lowest bit is clear exactly when the entry goes on top of the version sent last, and then no parents follow; the agent's name is there exactly when the message has not mentioned it, and the distance exactly when there is one |
| `WireCompact.ParentAnnounces` | tools/diamond-types/src/encoding/parents.rs:13-99 | The bytes of a parent: counted back from the end of the message exactly when it is in the message, otherwise by agent and sequence number, the agent by name only when it has not been mentioned |
| `WireRoundTrip.SpanBack` | tools/diamond-types/src/encoding/cg_entry.rs:15-140 | A written run reads back with the same agent by name, place and length, and the two agent tables stay in step |
| `WireRoundTrip.ParentListBack` | tools/diamond-types/src/encoding/parents.rs:64-161 | A written parent list, of local and foreign parents in any mixture, reads back as the same versions by ID |
| `WireRoundTrip.EntryBack` | tools/diamond-types/src/encoding/cg_entry.rs:59-162 | A written entry reads back, with its parents or with the rule for when they are left out |
| `WireMerge.KnownBelow` | tools/diamond-types/src/causalgraph/causalgraph.rs:141-146 | What is known of an incoming run is a prefix of it, whenever the two graphs agree on what both know |
| `WireMerge.MergeAgrees` | tools/diamond-types/src/causalgraph/causalgraph.rs:132-201 | Merging a run, known in part or not, gives each new version the parents, by ID, that it has in the sender's graph |
| `WireMerge.EntryMerged` | tools/diamond-types/src/encoding/cg_entry.rs:184-211 | One entry written, read and merged keeps writer and reader in step: same agents, same versions at the same places, graphs in agreement |
| `WireUnion.MessageBack` | tools/diamond-types/src/encoding/cg_entry.rs:223-245 | A reader consumes every byte of a message without failing and knows every version of the sender afterwards |
| `WireUnion.SerialisedUnion` | tools/diamond-types/src/encoding/cg_entry.rs:223-245 | The graph that results is the union by ID, each version with its parents, for any overlap of what the two sides knew |
| `WireMaps.PushMeans` | tools/diamond-types/src/rle/rle_vec.rs:35-37 | A run pushed, joined or not, adds exactly its keys with their values |
| `WireMaps.FindWithOffset` | tools/diamond-types/src/rle/rle_vec.rs:182-187 | Finds the value at a key, and nothing exactly when there is none |
| `WireMaps.WriteMap.MapMut` | tools/diamond-types/src/encoding/map.rs:110-129 | An agent keeps its number; one without a number gets the next |
| `WireMaps.WriteMap.SeqDelta` | tools/diamond-types/src/encoding/map.rs:145-156 | The distance from where the agent's last run ended, and the new end |
| `WireMaps.WriteMap.InsertKnown` | tools/diamond-types/src/encoding/map.rs:101-108 | The run's versions get the next places in the message |
| `WireMaps.ReadMap.LastTime` | tools/diamond-types/src/encoding/map.rs:25-31 | The version that was read last |
| `WireGraph.CausalGraph.GetOrCreateAgentId` | tools/diamond-types/src/causalgraph/agent_assignment/mod.rs:92-108 | Finds the agent with a name or adds it, and refuses exactly the names that are reserved or too long |
| `WireGraph.CausalGraph.TryAgentVersionToLv` | tools/diamond-types/src/causalgraph/agent_assignment/mod.rs:151-157 | Finds the version with an ID, and nothing exactly when it is not known |
| `WireGraph.CausalGraph.MergeAndAssign` | tools/diamond-types/src/causalgraph/causalgraph.rs:132-201 | The three cases on the agent's list record exactly what comes after the last known ID of the run; list, IDs, graph and frontier go on describing one another |
| `WireWriter.WriteCgAa` | tools/diamond-types/src/encoding/cg_entry.rs:15-56 | The pushed bytes and the updated agent table are those of the format |
| `WireWriter.WriteParentsRaw` | tools/diamond-types/src/encoding/parents.rs:13-99 | The loop over the parents writes each as the format says, given which versions have been sent |
| `WireWriter.WriteCgEntry` | tools/diamond-types/src/encoding/cg_entry.rs:59-89 | Writes the entry as the format says; `WireCompact.EntryAnnounces` says of those bytes that parents are included exactly when they are needed |
| `WireWriter.NextEntry` | tools/diamond-types/src/causalgraph/causalgraph.rs:227-241 | The longest run of one agent's versions, each on the one before |
| `WireWriter.CutIsLongest` | tools/diamond-types/src/causalgraph/causalgraph.rs:227-241 | The entries cut from a range follow one another without a gap, each is a run of one agent's versions, and none could be longer |
| `WireWriter.SerializeChanges` | tools/diamond-types/src/encoding/cg_entry.rs:214-232 | The message is, byte by byte, what the format says for the listed versions, each once, cut into the longest entries and in ascending order |
| `WireReader.ReadCgAa` | tools/diamond-types/src/encoding/cg_entry.rs:91-140 | Reads a run as the format says and fails exactly where it does |
| `WireReader.ReadParentsRaw` | tools/diamond-types/src/encoding/parents.rs:105-162 | Reads and sorts a parent list as the format says and fails exactly where it does |
| `WireReader.ReadRaw` | tools/diamond-types/src/encoding/cg_entry.rs:150-162 | A run and its parents; without parents it goes on top of what was read last |
| `WireReader.NoteSpan` | tools/diamond-types/src/encoding/cg_entry.rs:195-207 | Notes the versions of the whole run, from the pieces in the agent's list |
| `WireReader.ReadCgEntryIntoCg` | tools/diamond-types/src/encoding/cg_entry.rs:184-211 | Reads, merges and notes an entry as the format says, and fails exactly where it does |
| `WireReader.MergeSerializedChanges` | tools/diamond-types/src/encoding/cg_entry.rs:234-244 | Reads a message to its end, and fails exactly where the format does |
| `WireSync.DiffSince` | tools/diamond-types/src/causalgraph/causalgraph.rs:260-270 | The ranges are exactly the versions that are not in the frontier's history, ascending |
| `WireSync.SendChanges` | tools/diamond-types/src/encoding/cg_entry.rs:223-245 | Round trip down to bytes: whatever the other side knows beyond the frontier, it takes every byte and ends with the union of both graphs, keeping its own versions; if nothing was missing, its graph is unchanged |
| `ListRuns.RunIsSplice` | tools/diamond-types/src/list/op_metrics.rs:24-32 | The single operations of a run, one by one, do what the run does as a whole, forwards or backwards, and fail exactly when it does not fit |
| `ListRuns.SplitMeans` | tools/diamond-types/src/list/op_metrics.rs:221-232 | The two parts of a run say, one after the other, what the run says, at any offset |
| `ListRuns.AppendMeans` | tools/diamond-types/src/list/op_metrics.rs:260-273 | Joined runs say what the two said one after the other |
| `ListRuns.CanAppendExactly` | tools/diamond-types/src/list/op_metrics.rs:237-258 | Deletes can be joined exactly when a single run says the same, inserts exactly when a forward run does |
| `ListRuns.SplitThenAppend` | tools/diamond-types/src/list/op_metrics.rs:186-273 | Splitting and joining gives the run back, and joining is refused for backward inserts only |
| `ListRuns.ListOpMetrics.TruncateTaggedSpan` | tools/diamond-types/src/list/op_metrics.rs:186-203 | Truncating in place agrees with `split_op_span` |
| `ListRuns.ListOpMetrics.TruncateCtx` | tools/diamond-types/src/list/op_metrics.rs:134-161 | The truncated operation and the rest stand for the operations and the content from before |
| `ListRuns.ListOpMetrics.Append` | tools/diamond-types/src/list/op_metrics.rs:289-294 | An operation that takes in another stands for both, with the content of both |

## Left out

- `MergeReplay.MergeIsReplay`: the branch's own history has been replayed in the order of its versions here; that another order gives the same text is `Convergence.CheckoutsConverge`, which speaks of whole logs.
- `Documents.EditChecks`: a local delete of several items is that many edits.
- `Documents.EveryRunChecks`: a log with an operation outside the document its author saw cannot be checked out, and nothing is said about its document then; `Replicas.EveryHistorySettles` shows that there is no such log among documents whose edits fit.
- `Replicas.EveryHistorySettles`: a merge is stated by what `OplogMerge.MergeOplogInto` and `BranchMerge.MergeChangesIntoBranch` ensure; documents are values here, and every new operation has an ID that no document holds.
- `EditContext.Context`: the delete targets are a map, and an entry that was never written is absent where the source has -1; the item list is a sequence that is reassigned.
- `GrowingGraph.CausalGraph.TrimKnown`: as for `Add`.
- `GrowingGraph.CausalGraph.Add`: what is known of a span has to be a prefix of it, as the comment in the source says; the source does not check it.
- `OplogMerge.MergeOplogInto`: the two logs have to agree on the operations and the parents of IDs both know, and must not share a graph object.
- `Summaries.IntersectWithSummary`: the remainder that the source also returns is not modelled, since its caller ignores it; `eachVersionBetween` is taken to cut a range as `iterVersionsBetween` does.
- `Frontiers.Frontier.Retreat`: `frontier_contains_version` of the Rust graph is not part of this model; its place is taken by `versionContainsLV`.
- `OtText.TextOp.AppendRemainder`: the end of an operation is a test of the iterator instead of the component `Skip(usize::MAX)`, so lengths near that value are not modelled.
- `OtGraph.DocAtVersion`: operations and documents are taken unit by unit too.
- `OtGraph.BorrowOpsAtVersion`: operations are taken by meaning, unit by unit; that the component lists are rewritten the same way is what `OtOps.TransformList` states.
- `OtBranches.BranchesConverge`: for two branches; with three or more concurrent ones the order matters to the OT code.
- The Fugue list that the fuzzer compares with (`test/list-fugue-simple.ts`): `TreeOrder.TreeLess` defines the order in its place.
- TP2 for the OT code, which its header rules out, and so independence of the order of three or more concurrent operations.
- Integer widths: outside the message format, versions and lengths are unbounded; the 32-bit shifts of `findDominators2` are division by two.
- `retreat1` and `advance1` on IDs that are not in the context stand for a crash in the source and are modelled as failing.
- `WireSync.DiffSince`: `diff_rev` of the Rust graph is not part of this model; `Diff.Diff` of the reference takes its place, over one entry for each version.
- `WireWriter.SerializeChanges`: the ranges to write are given; `WireSync.SendChanges` works them out from the frontier.
- `WireSync.SendChanges`: the graph has fewer than 2^28 agents, 2^60 versions, and sequence numbers below 2^62.
- `WireMaps.WriteMap.InsertKnown`: runs come in ascending order, as the writer sends them.
- `WireWriter.WriteCgEntry`: entries are written in ascending order and kept in the maps (`persist`); the branches of `RleVec::insert` for other orders are not modelled.
- `WireReader.ReadCgAa`: errors are not told apart, names are not checked to be UTF-8, `start + len` does not overflow, and an entry of length zero, which no writer makes, is refused.
- `WireReader.MergeSerializedChanges`: after a failed read only this much is stated, that the graph is valid and keeps what it had.
- `Varint.DecodePrefixVarintU64`: the unrolled and the 32-bit decoders are not modelled; bit operations are written as arithmetic.
- `ListRuns.ListOpMetrics.TruncateCtx`: content is counted in characters, not in bytes.
- The encodings of list operations, chunks and files, and `merge_and_assign_nonoverlapping`.
- `advance_sparse`, `merge_union` and the other frontier helpers of the Rust library, `compareVersions`, `checkCG`, `assignLocal`, and the local edit helpers of `index.ts`.
- JumpRope, UTF-8 offsets, files, benchmarks, plotting and memory measurement.
