# The version engine, its model and its encodings

The repository keeps every version of every row of a table. Its engine
(`internal/engine`) stores row versions over half-open seq intervals, reads a branch
through a chain of `(branch, seq)` segments, and merges three ways with column masks
that narrow which cells it looks at. Beside it stands a deliberately naive model
(`internal/model`) with one snapshot per commit. The repository compares the two on
random runs. This project proves that they agree on every run, and proves the laws of
the code around them: the canonical encoding and hash chain, the resolution query,
diffs, reverts, history thinning and the resumable migration journal.

## How it is laid out

*The store.* `Versions` has the versions and what a chain reads; `Tiling` and `Staging`
what closing, appending, staging and publishing keep; `Lineage` and `Growth` the history
of chains and the overlay masks; `ThreeWay` the merge, and `Conflicts` what it must be, said of
rows and cells alone; `Dag` the commit graph.

*The two machines.* `IntervalMachine` and `SnapshotMachine` are the transitions of engine
and model over the operations of `Operations`. `IntervalEngine.Engine` (`Engine.dfy`) and
`SnapshotRepo.Repo` (`Repo.dfy`) are the mutable objects themselves, with the source's
loops (`Scans` and `MergeLoops` hold the loop invariants); each method is proved to make
exactly the transition of the same name, so what is proved of the transitions is proved
of the code.

*The refinement.* `Agreement` is the invariant: same graph, same heads and snapshots,
tiled store, well-formed chain history, sound masks, sessions seeing their overlays.
`Advance`, `Writing`, `Batches`, `Refinement`, `MergeRefinement`, `ForkRefinement` and
`SessionRefinement` show each operation keeps it, `Runs` does the induction, `Theorems`
and `Guarantees` draw the conclusions, `Outcomes` says what each operation answers in every
reachable state and `Stored` what it writes, `Provenance` says where commits and versions come
from, and `Differential` runs both objects side by side, comparing answers and making the
harness's whole check after every step, with the engine's `Probes`.

*Over the store.* `Changes`, `Replay`, `Filters`, `Query`, `Revert`, `Thinning`, `Migration`;
`Limits` has the concrete inputs on which a property stops short.

*Bytes.* `Masks`, `Encoding`, `Decimals`, `Numerals`, `Merkle`, `Digests`, `Commits`.

## Conventions

- Rows are total over the schema's columns, schema columns are distinct, and a change set
  is a map, so every change is filed under its own key. These are the only conditions on
  the operations of a run; unknown branches, closed sessions and ambiguous merge bases are
  modelled as the source's refusals.
- A run has fewer operations than there are seqs (`MaxSeq` is 2^63 - 1), so the next seq
  always stays below `MaxSeq`.
- Stored values are canonical: no NaN, and -0.0 already collapsed, as the constructors and
  `Encode` ensure. On them `Value.Equal` is identity (`Core.EqualIsIdentity`).
- Commit and session ids are counters; 0 stands for the empty string. Merge-base
  candidates are compared as a set, where the source sorts their names.
- The engine's masks are column sets; `Masks` ties them to the words of `ColMask`.
- A session commit closes the staged keys in key order. The source sorts the staged rows
  by key; a session has one row per key, so the order is the same.
- Where the engine's loops range over Go maps, the models take any order.
- A digest is its hash input, kept as a term, so equality of digests is equality of
  inputs and nothing is assumed about SHA-256. The byte order of digests is a parameter:
  any strict total order, of which `Merkle.DigestLess` is one.
- In `Migration` a crash can fall before any journal or schema statement; a statement that
  ran is durable even when the mark after it was lost.
- Lemmas switch automatic induction off, so every inductive step is written out.

Three comments in the source do not describe its code. `MergeBase` in the engine is called a
bidirectional search, but it runs one full breadth-first search from each side; the code is
what is modelled. `Prune` says protected commits are never pruned, but only counts them;
what is proved is the cutoff property, which holds whether or not a commit is protected. It
also says the newest old version is extended back over the gap; the code stretches the oldest
one forward, and so does the model.

Some properties hold only within limits. Each limit is exact or comes with an input beyond
it.

- A length prefix wraps at 2^32, and `decodeValue` compares it with the number of bytes left
  cut to 32 bits, so a value is read back exactly when payload and what follows fit
  (`Encoding.ReadBackIffFits`, with a failing input in `Encoding.TooMuchFollows`); keys below
  2^32 bytes always do.
- A diff reads both seqs over the tail the branch has now. Across updates from the parent the
  engine's change set equals the model's exactly when the tails allow it
  (`Guarantees.DiffIsSnapshotDiff`, with a failing run in `Limits.DiffMissesUpdate`). The
  store's entries also hold the images before, so they need more
  (`Guarantees.EntriesAreSnapshotEntries`, with a run between the two in
  `Limits.DeletionHidesUpdate`).
- A revert takes the seq of its commit and undoes what the branch did at that seq, over the
  present tail. It takes back what the commit changed exactly when tails and head allow it
  (`Revert.RevertTakesBack`, with an input beyond in `Limits.RevertMissesUpdate`). The id of
  another branch's commit names the branch's own commit at the same seq.
- Thinning drops the masks of the versions it deletes, so masks stay sound between views at or
  after the cutoff (`Thinning.PrunedMasks`) and not below it (`Limits.ThinningLosesBit`).
- The engine does not cap the depth of chains, and the harness's check does: it passes exactly
  while no chain exceeds the cap (`Differential.Compare`), as on all runs whose forks are guarded
  (`Differential.GuardedStaysShallow`).

## Model

| member | source | states |
|---|---|---|
| `Theorems.RunReads` | internal/engine/engine.go:134-257 | After any sequence of operations every head, fork commit, parent list, branch, commit and open session reads the same in the engine and in the model |
| `Theorems.RunOutcome` | test/property/oracle_test.go:94-246 | After any run the next operation has the same outcome on both sides: same id, same merge result with the same base and sorted conflicts, or the same refusal |
| `Runs.RunAgrees` | internal/engine/engine.go:326-908 | The induction over runs: from the empty repository every operation keeps the full agreement between store, chain history and snapshots |
| `Runs.StepRefines` | internal/model/model.go:146-481 | One operation, any of the eight: equal outcomes, and agreement is kept |
| `Outcomes.MergeAnswers` | internal/engine/engine.go:694-724 | In every reachable state Merge refuses unknown branches and an ambiguous base, and otherwise answers with the whole merge over the only base: result and conflicts as in `Conflicts.Merges`, clean if and only if there is no conflict if and only if there is a commit; a clean merge has a new commit on both heads that reads as the result, a conflicted one changes nothing, and the fork commit stays |
| `Outcomes.UpdateAnswers` | internal/engine/engine.go:726-765 | The same for UpdateFromParent over the fork commit; when the parent's head is the fork commit already, the answer is the branch as it is, clean, with no commit and no change; a clean update moves the fork commit |
| `Outcomes.CommitAnswers` | internal/engine/engine.go:326-366 | Commit refuses only an unknown branch; otherwise the branch has a new commit on its head and reads as before but for exactly the keys of the change set, deleted or holding the given rows |
| `Outcomes.CreateAnswers` | internal/engine/engine.go:369-385 | CreateBranch refuses a name in use and an unknown parent; otherwise the new branch reads as its parent, and its head and fork commit are the parent's head |
| `Outcomes.OpenAnswers` | internal/engine/engine.go:769-786 | OpenSession refuses an unknown branch and the root branch; otherwise a session with a new id is open on the branch's head and sees what it reads |
| `Outcomes.WriteAnswers` | internal/engine/engine.go:788-855 | SessionWrite refuses only a session that is not open; otherwise exactly the given keys change in its view, and nothing else is recorded |
| `Outcomes.PublishAnswers` | internal/engine/engine.go:869-908 | CommitSession refuses a session that is not open, and one whose branch has another head than when it was opened, changing nothing; otherwise the branch has a new commit that reads as the session's view, and the session is closed |
| `Outcomes.AbandonAnswers` | internal/engine/engine.go:911-928 | After AbandonSession the session is closed, exactly its staged rows are gone, and branches and commits are as they were |
| `Stored.CommitStores` | internal/engine/engine.go:326-366 | Commit stores at the branch's next seq at most one version per key and one for every key whose row changes; each holds the row after, is an insert or an update by whether there was a row before, and marks exactly the cells that moved |
| `Stored.MergeStores` | internal/engine/engine.go:652-691 | A clean merge stores the same, and exactly for the rows that differ from what the target read |
| `Stored.UpdateStores` | internal/engine/engine.go:652-691 | A clean update stores exactly the rows that differ from what the branch reads over the tail it newly inherits |
| `Differential.Compare` | test/property/property_test.go:31-44 | On any run the loop that issues every operation to both objects, compares the answers and makes the whole check after each step fails if and only if some branch's chain gets deeper than the cap of 8 |
| `Differential.GuardedStaysShallow` | test/property/oracle_test.go:107-119 | With the harness's guard, no fork from a branch at the cap, none ever does, so on the runs the harness issues every check passes |
| `Differential.Check` | test/property/oracle_test.go:292-366 | The check after a step passes if and only if branches, heads, fork commits, open sessions and filtered reads agree, chains are within the cap, the root branch holds no staged row and no row without a commit, and no key has two open or overlapping versions |
| `Probes.OpenVersionsPerKey` | internal/engine/engine.go:964-977 | The loop counts exactly the open versions of each key on each branch |
| `Probes.IntervalsSane` | internal/engine/engine.go:979-1004 | Grouping by key, sorting by start and comparing neighbours finds out, when no interval is empty, whether any two versions of a key overlap |
| `Probes.ZeroHashOnBranch` | internal/engine/engine.go:1018-1028 | The number of committed rows on the branch that name no commit |
| `Provenance.VersionsSigned` | internal/engine/engine.go:1018-1028 | In every reachable state a committed version names the commit that wrote it, recorded on the version's branch at the seq it starts at |
| `Provenance.FirstParent` | internal/engine/engine.go:315-324 | In every reachable state the first parent of a commit is its branch's commit at the seq before; that of a branch's first commit is a recorded commit |
| `Theorems.RunFilters` | internal/model/model.go:508-533 | After any run filtered reads and planned predicate updates agree on both sides, on any branch name, known or not |
| `Theorems.NothingElseMoves` | internal/engine/engine.go:161-257 | No operation changes the state of a recorded commit, the reading of a branch it does not commit on (descendants included), or the view of a session it does not name |
| `Theorems.HistoryImmutable` | internal/engine/engine.go:251-257 | However a run goes on, a commit, once recorded, resolves to the same state |
| `Guarantees.IntervalsTile` | internal/engine/engine.go:979-1004 | In every reachable state each seq from a key's first version on is covered by exactly one committed version of the key on the branch |
| `Guarantees.OneOpenVersion` | internal/engine/engine.go:964-977 | In every reachable state exactly one version of each key a branch ever wrote is open |
| `Guarantees.StagedRowsOwned` | internal/engine/engine.go:1006-1016 | Staged rows belong to an open session, sit on its branch, are one per session and key, and are never on the root branch |
| `Guarantees.MasksSound` | internal/engine/engine.go:449-535 | In every reachable state, if a cell differs between a branch and a commit (absent row read as NULL), its bit is in the mask since that commit |
| `Guarantees.MasksExact` | internal/engine/engine.go:449-535 | In every reachable state the mask of a branch since a commit holds a column of a key if and only if some version of the key marks it that is in the past of one of the two and not of the other |
| `Guarantees.MergesInFull` | internal/engine/engine.go:559-649 | In every reachable state the mask-narrowed merge of two branches over any commit returns the table and the sorted conflicts of the cell-by-cell merge |
| `Guarantees.MergeBaseExact` | internal/engine/engine.go:400-445 | In every reachable state two commits have a merge base, the bases are pairwise unrelated, and the common ancestors are exactly what the bases reach |
| `Guarantees.BranchReadsCommits` | internal/engine/engine.go:240-257 | A branch resolves to its head commit's state and its tail to its fork commit's state, also with no commits of its own |
| `Guarantees.UpdateMeans` | internal/engine/engine.go:726-765 | A clean update makes the branch read as the three-way merge of fork-point state, branch and parent; the fork commit becomes the parent's head, and the new tail resolves to it |
| `Guarantees.MergeMeans` | internal/engine/engine.go:694-724 | A clean merge makes the target read as the three-way merge over the only merge base, and leaves its fork point alone |
| `Guarantees.OpenMeans` | internal/engine/engine.go:769-786 | A new session has a new id and sees what its branch reads |
| `Guarantees.WriteMeans` | internal/engine/engine.go:788-855 | A session write changes the session's view by exactly the change set |
| `Guarantees.PublishMeans` | internal/engine/engine.go:869-908 | A session commit records exactly the session's view, the branch then reads as it, and the session is closed |
| `Guarantees.QueriesDenote` | internal/adapter/mysql/mysql.go:269-394 | On a reachable store the resolution query has exactly the answer "resolve chain and session, then filter" |
| `Guarantees.BranchQuery` | internal/adapter/mysql/mysql.go:257-267 | The unfiltered query over a branch's head chain answers exactly the branch's resolution |
| `Guarantees.DiffIsSnapshotDiff` | internal/engine/engine.go:930-958 | For any two commits of a branch the engine's diff equals the model's diff of their snapshots if and only if, on every key the branch says nothing about at the first commit: if it says nothing at the second, the two commits' tails agree; otherwise the first commit's tail and the present tail become what it says by one and the same change (same operation, same columns) |
| `Guarantees.EntriesAreSnapshotEntries` | internal/store/read.go:362-427 | The store's diff, which keeps images before, lists exactly what changed between the two commits if and only if on those keys the tails agree outright |
| `Guarantees.EntriesToPresent` | internal/store/read.go:362-427 | With images before, and the second commit read over the present tail, that comes down to the first commit's state being what the branch reads at its seq over this tail |
| `Guarantees.DiffSinceUpdate` | internal/model/model.go:484-503 | So both diffs are exact whenever no update from the parent lies after the earlier commit |
| `Limits.DiffMissesUpdate` | internal/engine/engine.go:930-958 | A run on which engine and model differ: a branch commits nothing, its parent changes a row, the branch takes it over; the scan finds nothing, the snapshots differ by the update |
| `Limits.DeletionHidesUpdate` | internal/store/read.go:362-435 | The branch then deletes the row: both change sets are the deletion, though the branch reads another row at its first commit's seq than that commit held; only the image before in the store's entry shows it |
| `Refinement.CommitRefines` | internal/engine/engine.go:326-366 | Commit issues the model's id or refusal and keeps agreement |
| `ForkRefinement.CreateRefines` | internal/engine/engine.go:369-385 | CreateBranch: same outcome; the new branch reads as its parent's head, which is its fork commit |
| `ForkRefinement.UpdateRefines` | internal/engine/engine.go:726-765 | UpdateFromParent: same outcome, and agreement is kept, overlay masks included |
| `ForkRefinement.UpdateOverlay` | internal/engine/engine.go:652-691 | After a clean update a cell of the branch differs from the newly inherited view only where some mask of the branch says so |
| `ForkRefinement.UpdateMoves` | internal/engine/engine.go:652-691 | Writing only the rows that differ from the newly inherited view still makes the branch read as the merged table |
| `MergeRefinement.MergeRefines` | internal/engine/engine.go:694-724 | Merge: same base or refusal, same table, same sorted conflicts, same commit |
| `SessionRefinement.OpenRefines` | internal/engine/engine.go:769-786 | OpenSession: same id or refusal (the root branch takes none), and agreement is kept |
| `SessionRefinement.WriteRefines` | internal/engine/engine.go:788-855 | SessionWrite: the engine's private view is the model's overlay, and the accumulated masks cover every net change |
| `SessionRefinement.PublishRefines` | internal/engine/engine.go:869-908 | CommitSession: same id or refusal (also when the branch moved), and the published state is the overlay |
| `SessionRefinement.AbandonRefines` | internal/engine/engine.go:911-928 | AbandonSession drops the private rows and shows nowhere else |
| `Advance.AdvanceAgrees` | internal/engine/engine.go:315-324 | Recording a commit whose rows move the store soundly keeps store, history, snapshots and sessions in agreement |
| `Lineage.MaskSound` | internal/store/merge.go:315-395 | Diffing two chains segment by segment, in both range directions and with base-only segments, covers every cell on which the two views differ |
| `Lineage.ViewUnmoved` | internal/engine/engine.go:187-239 | New versions above every recorded seq of a branch change no recorded view |
| `Growth.ExtendMasked` | internal/engine/engine.go:752-765 | The overlay-mask invariant survives a commit over the same tail and over an advanced one |
| `Growth.ForkView` | internal/engine/engine.go:369-385 | A branch with no versions of its own reads as the chain it inherits |
| `Versions.WriteTiled` | internal/engine/engine.go:304-313 | Closing the open version and appending one at the same seq keeps a key's intervals disjoint and in range |
| `Versions.WriteAllAt` | internal/engine/engine.go:326-366 | At the new seq a written key reads as its version and every other key as before |
| `Versions.WriteAllSame` | internal/engine/engine.go:326-366 | A whole commit's writes keep the tiling and every reading below the new seq |
| `Tiling.TilesExactly` | internal/store/retention.go:393-455 | Intervals that are disjoint and each followed by the next cover every seq from the first start on exactly once |
| `Tiling.OneOpen` | internal/store/retention.go:430-455 | Exactly one of a key's versions is open |
| `Staging.PublishedAt` | internal/engine/engine.go:882-900 | Publishing a session: a staged key reads as staged at the new seq, any other as before |
| `Staging.PublishedSame` | internal/engine/engine.go:882-900 | Publishing keeps the tiling and every reading below the new seq |
| `Staging.StageRowEffect` | internal/engine/engine.go:814-836 | Staging a key touches no committed row and no other session, and accumulates the key's mask |
| `Writing.WrittenView` | internal/engine/engine.go:652-691 | A batch of versions for the keys that differ turns the branch's view into the intended table |
| `ThreeWay.NarrowedIsFull` | internal/store/merge.go:196-288 | With sound masks the narrowed merge equals the full merge, tables and sorted conflicts, set bits that hide a change-and-change-back included |
| `ThreeWay.CleanMerge` | internal/model/model.go:247-331 | Every cell of a clean merge obeys the three-way law: the side that changed wins, an unchanged cell stays |
| `ThreeWay.CleanIff` | internal/model/model.go:247-307 | A merge reports no conflict exactly when every key has a decision |
| `ThreeWay.MergeUnits` | internal/model/model.go:247-307 | Merging with an unchanged side gives the other side, merging equal sides gives that side |
| `ThreeWay.MergeSymmetric` | internal/model/model.go:247-307 | Swapping the sides keeps the table and whether the merge is clean |
| `Conflicts.MergeIs` | internal/model/model.go:247-330 | Of any three total tables the merge is the one result and the one list of conflicts such that: the conflicts are, each once and sorted, exactly the keys both sides added with different rows, the rows one side deleted and the other changed, and the cells of a row all three have that both sides changed to different values, with these values; a key in conflict is left out, a row all three have is merged cell by cell, a new row is taken from the side that has it, a deleted one is gone |
| `Conflicts.CleanExactly` | internal/engine/engine.go:594-649 | A merge is clean if and only if no key is in one of these three cases |
| `MergeLoops.DecideNarrowed` | internal/store/merge.go:221-285 | The per-key case analysis and column loop over the touched columns decide the key as the narrowed merge does |
| `MergeLoops.DecideFull` | internal/model/model.go:258-331 | The same over the whole schema decides it as the full merge does |
| `Dag.Reach` | internal/engine/engine.go:400-419 | The breadth-first queue terminates on any commit graph, cycles and unknown parents included, and finds exactly the reflexive ancestors |
| `Dag.CollectAncestors` | internal/model/model.go:177-193 | The recursive walk finds exactly the same set |
| `Dag.FindMergeBases` | internal/engine/engine.go:420-445 | The domination loops return exactly the undominated common ancestors |
| `Dag.BasesAntichain` | internal/model/model.go:202-230 | No merge base reaches another |
| `Dag.BasesCover` | internal/model/model.go:202-230 | Every common ancestor is reached from some merge base |
| `Dag.BasesExist` | internal/model/model.go:202-230 | Two commits with a common root have a merge base |
| `Dag.BaseOfAncestor` | internal/engine/engine.go:400-445 | When one head already contains the other, that other is the only base |
| `IntervalEngine.Engine.DiffEntries` | internal/store/read.go:362-427 | The entries at exactly the keys written in the range, images before included; a negative upper seq is the head, an unknown branch an error |
| `IntervalEngine.Engine.Winners` | internal/engine/engine.go:187-226 | The priority scan holds, per key, the session's staged row, else the covering version of the nearest segment |
| `IntervalEngine.Engine.ResolveChain` | internal/engine/engine.go:229-239 | Winners with tombstones dropped are the denoted view of the chain and session |
| `IntervalEngine.Engine.Resolve` | internal/engine/engine.go:241-249 | A branch's view, or nothing for an unknown branch |
| `IntervalEngine.Engine.StateAtCommit` | internal/engine/engine.go:251-257 | The view of the chain stored with the commit |
| `IntervalEngine.Engine.ResolveFiltered` | internal/engine/engine.go:269-300 | The two-pass filtered read equals resolving everything and filtering |
| `IntervalEngine.Engine.PlanUpdateWhere` | internal/engine/engine.go:1034-1048 | One update per matching resolved row that the assignment changes; none on an unknown branch |
| `IntervalEngine.Engine.CloseOpen` | internal/engine/engine.go:304-313 | In place, exactly the first open version of the key ends at the seq |
| `IntervalEngine.Engine.Commit` | internal/engine/engine.go:326-366 | The version list, branch, commit table and result become those of the commit transition |
| `IntervalEngine.Engine.CreateBranch` | internal/engine/engine.go:369-385 | New branch with the inherited chain, or the refusals of the source |
| `IntervalEngine.Engine.MergeBase` | internal/engine/engine.go:400-445 | Exactly the undominated common ancestors |
| `IntervalEngine.Engine.AccumulateMask` | internal/engine/engine.go:451-463 | Per key, the columns changed by committed versions that start in the range |
| `IntervalEngine.Engine.MaskSinceCommit` | internal/engine/engine.go:482-535 | The loops over both chains gather exactly the mask the soundness theorem is about |
| `IntervalEngine.Engine.MergeStates` | internal/engine/engine.go:559-649 | The narrowed merge over the gathered masks |
| `IntervalEngine.Engine.ApplyMergeResult` | internal/engine/engine.go:652-691 | Upserts and tombstones for exactly the differing rows, recorded as one commit |
| `IntervalEngine.Engine.Merge` | internal/engine/engine.go:694-724 | The merge transition: state and result |
| `IntervalEngine.Engine.UpdateFromParent` | internal/engine/engine.go:726-765 | The update transition: the tail advances first, then the result is written against it |
| `IntervalEngine.Engine.OpenSession` | internal/engine/engine.go:769-786 | The open transition, with its refusals |
| `IntervalEngine.Engine.SessionWrite` | internal/engine/engine.go:788-855 | The write transition: rows staged in place, masks accumulated, the local view updated key by key |
| `IntervalEngine.Engine.SessionResolve` | internal/engine/engine.go:857-867 | The session's private view |
| `IntervalEngine.Engine.CommitSession` | internal/engine/engine.go:869-908 | The publish transition, refused when the branch moved |
| `IntervalEngine.Engine.AbandonSession` | internal/engine/engine.go:911-928 | The session closes and its rows are filtered out |
| `IntervalEngine.Engine.Diff` | internal/engine/engine.go:930-958 | The change set, without images before, at exactly the keys written in the range |
| `IntervalEngine.Engine.StagedOnBranch` | internal/engine/engine.go:1006-1016 | The number of staged rows on the branch |
| `SnapshotRepo.Repo.ApplyChanges` | internal/model/model.go:133-144 | The next table holds each changed key's new row, loses deleted keys and keeps the rest |
| `SnapshotRepo.Repo.Commit` | internal/model/model.go:146-162 | The model's commit transition |
| `SnapshotRepo.Repo.CreateBranch` | internal/model/model.go:164-174 | The model's branch transition |
| `SnapshotRepo.Repo.MergeBase` | internal/model/model.go:202-230 | Full ancestor sets, intersected, undominated members kept |
| `SnapshotRepo.Repo.MergeTables` | internal/model/model.go:247-307 | The value-by-value merge of three snapshots with its sorted conflicts |
| `SnapshotRepo.Repo.Merge` | internal/model/model.go:334-373 | The model's merge transition |
| `SnapshotRepo.Repo.UpdateFromParent` | internal/model/model.go:376-409 | The model's update transition |
| `SnapshotRepo.Repo.OpenSession` | internal/model/model.go:420-435 | The model's open transition |
| `SnapshotRepo.Repo.SessionWrite` | internal/model/model.go:437-446 | The overlay takes the change set |
| `SnapshotRepo.Repo.CommitSession` | internal/model/model.go:458-475 | The overlay becomes the new head's snapshot, refused when the head moved |
| `SnapshotRepo.Repo.AbandonSession` | internal/model/model.go:477-481 | The session closes |
| `SnapshotRepo.Repo.Diff` | internal/model/model.go:484-503 | The change set between two snapshots, over all their keys |
| `SnapshotRepo.Repo.ResolveFiltered` | internal/model/model.go:508-516 | The head snapshot, filtered; empty on an unknown branch |
| `SnapshotRepo.Repo.PlanUpdateWhere` | internal/model/model.go:520-533 | One update per matching row of the snapshot that the assignment changes |
| `Masks.DifferenceMask` | internal/core/mask.go:129-137 | MaskOf sets exactly the bits of the columns on which two row images differ |
| `Masks.Set` | internal/core/mask.go:33-41 | Set adds one column and never narrows the mask |
| `Masks.OrMasks` | internal/core/mask.go:43-61 | Or is the union of the column sets, masks of different width included |
| `Masks.Cols` | internal/core/mask.go:96-108 | The columns of the mask, each once, ascending |
| `Masks.UnionCols` | internal/core/mask.go:111-125 | The columns of either mask, each once, ascending |
| `Masks.Intersects` | internal/core/mask.go:65-76 | Comparing the shared words decides whether the column sets meet |
| `Masks.TrimmedIsCanonical` | internal/hash/hash.go:86-103 | Two masks of any widths trim to the same words if and only if they stand for the same columns |
| `Changes.ScanIsFull` | internal/engine/engine.go:930-958 | Looking only at keys written in (from, to] finds the whole difference of the two resolutions over one tail, as changes and as entries |
| `Changes.ScanAcrossTails` | internal/store/read.go:399-435 | The store's entries over one tail are those of two seqs read over tails of their own if and only if the tails allow it |
| `Changes.DiffAcrossTails` | internal/engine/engine.go:930-958 | The same for the engine's change sets, which hold no images before |
| `Changes.AllowsLess` | internal/store/read.go:399-435 | Tails that allow the entries allow the change set |
| `Changes.EntriesAgreeIff` | internal/store/read.go:410-424 | Two lists of entries are equal if and only if both images agree on every key that changed in either |
| `Changes.DiffsAgreeIff` | internal/model/model.go:484-503 | Two change sets are equal if and only if the same keys changed to the same rows, from none or from rows that differ from it in the same columns; any two deletions are the same |
| `Changes.BackwardScan` | internal/engine/engine.go:930-945 | With to at or before from the scan is empty, so it is right exactly when the two tables are equal |
| `Changes.EntriesDetermine` | internal/store/read.go:350-424 | With images before, the entries up to a table determine the table they start from |
| `Replay.DiffIs` | internal/model/model.go:484-503 | The difference of two tables is the one change set that lists exactly the keys whose row changed, as an insert, a delete or an update according to which of the two rows are there, with the new row, and marks exactly the cells that differ |
| `Replay.EntriesAre` | internal/store/read.go:405-424 | The same of the store's entries, which also hold the row before |
| `Replay.ReplayLaw` | internal/model/model.go:484-503 | The difference of two tables, applied to the first as a change set, gives the second |
| `Replay.BranchDiffTells` | internal/engine/engine.go:930-958 | In every reachable state the diffs of a branch between any two ascending seqs tell every key of its two readings over the present tail so, and replaying the changes on the first reading gives the second |
| `Replay.DiffReplays` | internal/engine/engine.go:930-958 | Between two commits read over the present tail that takes the one's state to the other's |
| `Replay.DiffCarries` | internal/model/model.go:133-162 | Any branch that reads as one commit reads as another once the model's diff of the two is committed on it |
| `Filters.FilteredIs` | internal/model/model.go:508-516 | A filtered table is the one table with exactly the matching rows, as they are |
| `Filters.PlanIs` | internal/model/model.go:520-533 | Applying a planned predicate update turns exactly the matching rows into their assigned ones, and the plan lists exactly the keys this changes |
| `Filters.PlanCommits` | internal/engine/engine.go:1034-1048 | Committed on its branch in a reachable state, the plan does so to what the branch reads |
| `Query.QueryDenotes` | internal/adapter/mysql/mysql.go:279-394 | On any tiled store: candidate CTE, UNION ALL arms by priority, row number one and the outer filter answer exactly resolve-then-filter, for any predicate, session and pushed-down key filter |
| `Filters.FilterQuery` | internal/adapter/mysql/mysql.go:279-394 | In a reachable state the filtered query over a branch's head chain answers exactly the rows the branch reads that match, as the engine's two-pass read does |
| `Revert.Revert` | internal/store/revert.go:29-97 | One commit of the undoing changes, or a refusal that changes nothing, as `Revert.RevertStep` |
| `Revert.RevertAnswers` | internal/store/revert.go:29-97 | In every reachable state, for any commit and branch: an unknown commit, a root commit and an unknown branch are refused; nothing to revert if and only if the branch reads the same just before and at the commit's seq; unforced, refused if and only if keys that changed there hold another value now, naming exactly those; otherwise one new commit on the head takes exactly those keys back |
| `Revert.RevertUndoes` | internal/store/revert.go:44-97 | After an accepted revert the keys the commit changed read as at seq-1 and every other key as at the head, under the present tail |
| `Revert.RevertTakesBack` | internal/store/revert.go:29-97 | Reverting a commit leaves the branch as if the difference between its first parent's state and its own were undone if and only if, on every key the branch said nothing about before it, tails and head allow it |
| `Revert.AllowsTakingBack` | internal/store/revert.go:44-97 | They do, whatever the head, when the tails allow the store's entries of the commit |
| `Limits.RevertMissesUpdate` | internal/store/revert.go:44-51 | An input beyond: an update from the parent that changed the row the branch reads; its revert finds nothing to revert, forced or not |
| `Revert.AcceptedIffUnmoved` | internal/store/revert.go:60-88 | The unforced guard passes if and only if no key of the commit has a different value at the head than just after the commit |
| `Revert.UndoRestores` | internal/store/revert.go:74-82 | Applying the undoing changes of a difference restores its keys and no others |
| `Thinning.Sidecar.Prune` | internal/store/retention.go:91-171 | Thinning every key with several old closed versions keeps tiling, open and staged rows and every reading at or after the cutoff; over the span of its closed versions a key then reads as the oldest of them did and elsewhere as before; and no key is left with two closed versions up to the cutoff |
| `Thinning.ThinTiled` | internal/store/retention.go:136-166 | Stretching the first version over the span and deleting the others keeps the intervals tiled |
| `Thinning.ThinReads` | internal/store/retention.go:136-166 | Inside the span the key reads as its oldest version did; nothing else reads differently |
| `Thinning.PrunedViews` | internal/store/retention.go:91-171 | Every resolution whose segment of the pruned branch is at or after the cutoff is unchanged |
| `Thinning.PrunedMasks` | internal/store/retention.go:91-171 | After the default branch is pruned, masks stay sound between any two recorded views at or after the cutoff |
| `Limits.ThinningLosesBit` | internal/store/retention.go:140-166 | Below the cutoff they do not: a run after which thinning the default branch makes the mask between a branch and the head forget a cell on which they differ |
| `Thinning.Sidecar.PruneUnder` | internal/store/retention.go:53-171 | Under any policy, none included, the store is pruned to the policy's cutoff; without a policy or with a cutoff before the first commit nothing goes |
| `Thinning.CutoffIs` | internal/store/retention.go:56-88 | The cutoff is where the seqs begin that the policy keeps: the last commits to keep, and those from the last seq older than the days to keep on |
| `Thinning.PolicyKeeps` | internal/store/retention.go:56-88 | Every seq the policy keeps reads as before |
| `Thinning.PolicyThins` | internal/store/retention.go:110-171 | Of the rest, at most one version of each key is left that was closed by the first kept seq |
| `Migration.Rerunnable` | internal/adapter/mysql/ddl.go:26-112 | Each guarded statement, run again right after it succeeded, succeeds and changes nothing |
| `Migration.StatementIs` | internal/adapter/mysql/ddl.go:50-112 | A statement has an effect if and only if it is not refused, and the effect is the one schema that leaves every column it does not name as it was and of the named ones: added (an existing one untouched), absent, the old definition under the new name, or the stated type and nullability |
| `Migration.FailsIff` | internal/adapter/mysql/ddl.go:82-112 | It is refused exactly when it renames onto another column, changes a column that is not there, or requires NOT NULL of one that holds a NULL |
| `Migration.CleanRunIs` | internal/adapter/mysql/mysql.go:576-602 | A clean run reaches a schema if and only if the plan's statements, none refused, lead there one after the other |
| `Migration.LastDecides` | internal/adapter/mysql/mysql.go:584-600 | After a finished plan a column is what the last statement that names it left of it |
| `Migration.Database.Exec` | internal/adapter/mysql/mysql.go:594-596 | Running one statement leaves what it should, or fails exactly when it is refused and changes nothing |
| `Migration.Database.Begin` | internal/store/journal.go:20-32 | Beginning a plan adds the missing journal rows and keeps the marks |
| `Migration.Database.MarkComplete` | internal/store/journal.go:42-48 | Only a journalled step is marked, and no other mark moves |
| `Migration.Database.ApplyMigration` | internal/adapter/mysql/mysql.go:576-602 | One attempt, cut after any number of statements, leaves the plan resumable; finished means the clean run's schema, failed means the clean run fails |
| `Migration.Resume` | internal/adapter/mysql/mysql.go:576-602 | Any number of attempts crashed anywhere and then one uninterrupted: it finishes if and only if the clean run would, with the clean run's schema; then a column no statement names is as it was, one last dropped or renamed away is absent, one last altered has the stated type and nullability, one last added is there, with the stated type if it was gone before |
| `Encoding.RoundTrip` | internal/core/value.go:255-291 | An encoding, whatever follows, says what the value is (zeros collapsed) and where it ends |
| `Encoding.ReadBackIffFits` | internal/store/values.go:235-284 | decodeValue reads back an encoded value, whatever follows, if and only if payload length and what follows, cut to 32 bits, still cover the payload |
| `Encoding.TooMuchFollows` | internal/store/values.go:263-272 | A concrete failing input: a one-byte text followed by 2^32 - 1 bytes is called truncated |
| `Encoding.PrefixFree` | internal/core/value.go:255-291 | No encoding is the beginning of another value's encoding |
| `Encoding.EqualBytesIffEqual` | internal/core/value.go:177-198 | Equal bytes if and only if the values are equal in the sense of Value.Equal |
| `Encoding.BigEndianAt` | internal/core/value.go:264-268 | The bytes of a number are its digits to base 256, most significant first |
| `Encoding.PinnedWords` | internal/hash/hash_test.go:33-45 | The pinned encodings of numbers and times, byte for byte: 0, 1, -1, 1.5, -0.0, the epoch |
| `Encoding.PinnedPayloads` | internal/hash/hash_test.go:33-45 | The pinned encodings of NULL, the booleans, a numeric, texts and bytes |
| `Encoding.AppendValue` | internal/core/value.go:255-291 | Appending in place adds exactly the encoding, and refuses exactly NaN |
| `Encoding.MakePK` | internal/core/value.go:424-431 | The key is the number of parts and then each part's encoding; NaN in a key part is the panic |
| `Encoding.ParsePK` | internal/store/values.go:213-233 | The decoding loop computes the recursive decoder, with its truncation and part-count failures |
| `Encoding.KeyReadBack` | internal/store/values.go:213-233 | A key of any number of parts decodes to its parts in order exactly when each part fits with what follows it, and is refused otherwise |
| `Encoding.KeyRoundTrip` | internal/core/value.go:424-431 | Every key shorter than 2^32 bytes decodes to its parts in order |
| `Encoding.SameKeyIffSameParts` | internal/core/value.go:424-431 | Two keys are the same bytes if and only if they have equal parts |
| `Encoding.RowsFramed` | internal/core/value.go:392-402 | Row encodings agree, whatever follows, if and only if columns and cells do |
| `Encoding.AppendRow` | internal/core/value.go:392-402 | Appending a row adds exactly its encoding, and refuses exactly when a listed cell is NaN |
| `Core.EqualIsIdentity` | internal/core/value.go:177-198 | On canonical values Value.Equal is identity |
| `Core.ZerosAreEqual` | internal/core/value.go:190-193 | The two zeros are equal and distinct |
| `Core.EqualReflexiveIffNotNaN` | internal/core/value.go:177-198 | Value.Equal is reflexive exactly off NaN |
| `Decimals.NormalForm` | internal/core/value.go:128-170 | normalizeDecimal keeps the number, is idempotent, and gives two accepted strings the same output if and only if they denote the same number |
| `Decimals.SameNumberIffSameSpelling` | internal/core/value.go:128-170 | Two sign-and-digit literals denote the same number if and only if they are spelled the same |
| `Numerals.ReadIff` | internal/core/value.go:128-152 | normalizeDecimal accepts exactly white space, at most one sign, digits with at most one point among them and at least one digit in all, and white space; and it reads off the sign and digits that stand there |
| `Numerals.CanonicalIff` | internal/core/value.go:124-170 | Its outputs have no leading zero but a single one, no trailing zero after the point, no bare point, no plus and no minus before zero, and it leaves alone exactly the strings of that shape |
| `Decimals.NormalizeDecimal` | internal/core/value.go:128-170 | The stepwise code computes the read-then-spell function, errors included |
| `Decimals.NumericExact` | internal/store/values.go:138-168 | All but NaN and infinities are rendered, and what is written denotes exactly Int times 10^Exp and normalizes to the one spelling of that number |
| `Decimals.BuildNumericString` | internal/store/values.go:138-168 | The padding loop and slicing compute the rendering function, with the error on NaN and the nil Int of an infinity |
| `Merkle.SameRootIffSameLeaves` | internal/hash/hash.go:111-137 | Two lists of leaf digests have the same root if and only if they are the same multiset; the empty list is apart |
| `Merkle.DigestsOrdered` | internal/hash/hash.go:117-121 | Digests compared input by input are strictly and totally ordered, so an order for the sort exists |
| `Merkle.BuildRoot` | internal/hash/hash.go:111-137 | Sort, pair, promote the odd one: the loop terminates and computes the recursive root |
| `Merkle.NodeStandsForLeaves` | internal/hash/hash.go:111-137 | The restriction to leaf digests is needed: an internal node has the root of its two children |
| `Merkle.LevelAt` | internal/hash/hash.go:122-135 | On the next level stands the node of the two neighbours in order, or the odd one out itself |
| `Merkle.LevelKeepsFringe` | internal/hash/hash.go:122-135 | Every level keeps the leaves below it, in order |
| `Digests.SameLeafIffSameContent` | internal/hash/hash.go:65-84 | Leaf digests are equal if and only if table, key, operation, column set and, unless deleted, the cells agree; the mask width does not show |
| `Digests.MaskBytes` | internal/hash/hash.go:90-100 | The two loops write out exactly the words left after trimming |
| `Digests.BuildLeaf` | internal/hash/hash.go:70-84 | Appending field by field builds the framed input; NaN is the only refusal |
| `Digests.SameChangesIff` | internal/hash/hash.go:140-150 | Change digests are equal if and only if the change lists hold the same contents, counted, in any order |
| `Digests.ChangeDigest` | internal/hash/hash.go:140-150 | The loop over leaves computes the root of all of them or fails with the first refused leaf |
| `Digests.SameSchemaIff` | internal/hash/hash.go:165-190 | Schema digests are equal if and only if table and set of columns agree; declaration order does not show |
| `Digests.BuildSchema` | internal/hash/hash.go:165-190 | The sorted columns appended field by field build the framed input |
| `Commits.SameIdIffSameCommit` | internal/hash/hash.go:217-239 | Commit ids are equal if and only if repository, parent multiset, both digests, author, microsecond time, message and reference agree |
| `Commits.BuildCommitID` | internal/hash/hash.go:217-239 | Appending header, sorted parents, digests and text fields builds the framed input |
| `Commits.TagsApart` | internal/hash/hash.go:44-54 | A commit id is never a leaf, an internal node, the empty root or a schema digest |
| `Commits.VerifyChain` | internal/hash/hash.go:248-262 | The first unpurged commit whose stored id is not the hash of its content, or none if and only if all match |
| `Commits.HeadFixesHistory` | internal/hash/hash.go:8-16 | Two verified histories that share a commit share every ancestor reachable without crossing a purge, content included |

## Left out

- The database layer (drivers, transactions, advisory locks, leases, connection pools), the
  servers, the command line, the SDKs and generated code: each operation is one atomic step.
- The store's session write, which replaces the staged row and keeps only the latest mask:
  mask soundness does not hold of it, and the engine's accumulating version is modelled.
- The store's `UpdateFromParent`, which commits and advances the chain in two transactions:
  the engine's single step is modelled. The store's `mergeStates` and `maskSince` are line
  for line the engine's and are covered by the same members.
- Paged reads (`Limit`, `After`), materialised branches, tags, branch deletion, blame and the
  row history listing.
- Query.QueryDenotes: the query is relational algebra over stored versions, not SQL text; the
  predicate compiler, quoting and value binding are not modelled, a key filter is a predicate
  on the key. The refusal of an empty chain or one past the depth cap is left to the caller.
- Migration.Rerunnable: a statement is its effect on the columns of one table; SQL text and
  stored data are reduced to whether a column holds a NULL.
- Migration.Resume: one plan per journal key, where the source also keys several plans of one
  table alike.
- Thinning.Sidecar.PruneUnder: the clock and the commit-time query are a parameter, the last seq
  older than the bound.
- Revert.Revert: the author, message and reference of the commit it makes are not modelled.
- IntervalEngine.Engine.DiffEntries: the store reads each touched key by a query of its own;
  here both ends are resolved once and looked up.
- Differential.Compare: the generator of operations and the shrinking of failing runs; the run
  is a parameter, and so are the filters of the check.
- Driver values (`bind`, `fromDriver`) and the conversions between floats and their 64 bits.
- Decimals.NormalForm: strings are sequences of Unicode characters; ill-formed UTF-8, which the
  source refuses, is not representable.
- Digests.SameSchemaIff: column ids are distinct, since the source's sort leaves ties open.
- Merkle.SameRootIffSameLeaves: digests are terms, so collisions of SHA-256 do not exist here.
- Retention's garbage collection and purge, export, drift checks, encryption and key envelopes.
- The schema engine's classification of changes, proposals, authentication and guards: each is
  settled by reading one branch of the code.
