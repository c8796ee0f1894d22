# A verified model of memiavl and its companions

memiavl keeps the state of a chain as a forest of IAVL trees: balanced search trees whose
root hash depends on the shape of the tree and on the version at which every node was
written. Nodes live in memory, where they are changed in place or cloned, or in an
immutable snapshot, where they are plain records found by index arithmetic. Changes go to a
write-ahead log; a snapshot and the rest of the log make up the database on disk. This
project models that in Dafny, together with the codec and the external sorter that build
the versioned database, and proves the main promises of each part for all inputs and runs.

How the parts fit together:

- `Iavl.dfy`, `IavlProps.dfy`, `IavlContents.dfy`: the reference tree, a plain datatype.
  Every run of sets and removes keeps it a balanced search tree with exact heights and
  sizes, and its leaves are those of an ordered map.
- `MemTree.dfy`, `MemHash.dfy`: the same operations on heap nodes and persisted nodes. A
  ghost `Layout` says which object or record holds which node. For any mixture, and any
  copy-on-write version, they do what the reference functions do, write only to nodes the
  tree owns, and never leave a stale hash.
- `Sharing.dfy`, `Tree.dfy`, `Forest.dfy`: one tree with its cache, what a write to it does to
  a copy, and any number of trees that share nodes after copies. Over every run, each tree is
  what its own operations made it.
- `Snapshot.dfy`, `SnapshotFiles.dfy`, `SnapshotWriter.dfy`: the snapshot as records and as
  bytes. Writing a tree and walking back through the index arithmetic gives the same tree.
- `Lookup.dfy`, `Iterator.dfy`, `Export.dfy`, `Import.dfy`, `Proof.dfy`: reading.
- `StoreList.dfy`, `MultiTree.dfy`, `PendingLog.dfy`, `UpgradeOrder.dfy`, `StateChanges.dfy`:
  all stores together, the log entry of the next commit, replay, when upgrades may be logged
  before the changes they followed, and the changes of a store read back from the log.
- `HashBinding.dfy`, `CommitInfo.dfy`: what a root hash tells of a tree, and the commit info that
  a load compares with the trees it finds.
- `Wal.dfy`, `WalSegments.dfy`, `Commit.dfy`, `Recovery.dfy`: the bytes and files of the log, the
  commit protocol, and snapshots, pruning and rollback with a stop after any step.
- `HistoricalState.dfy`, `HistoricalCache.dfy`: the cache of databases opened at past versions,
  with any number of callers in any interleaving.
- `ChangeSet.dfy`, `Delta.dfy`, `SorterItem.dfy`, `Merge.dfy`, `ExtSort.dfy`: the change-set
  codec and the external sorter.
- `Bytes.dfy`, `Hashing.dfy`: byte strings, fixed-width and variable-width integers, hashes.

Some choices. Keys and values are byte sequences; a missing value is `None`. Machine
integers are unbounded except where the source truncates or wraps: `U8`, `U32`, and the
64-bit log index. SHA-256 is a parameter, any function to 32 bytes. A method that updates
objects takes a ghost layout of what it may touch. An error return is an `ok` flag, an
`Option`, or a result datatype.

Where a promise does not hold of the code, the code is kept, an input shows the failure,
and the exact condition is proved:

- A copy is isolated from its original if and only if the original owns no node when it is
  copied, which holds at a version boundary. After a write to a key of the tree the copy
  stands for its tree if and only if no node on the path of the key was owned
  (`Trees.WriteAfterCopy`), and a tree that owns a node has such a key
  (`Trees.ExposedIffOwned`); `Trees.DirtyCopyChanges` is an instance.
- A lookup by index is right if and only if the 32-bit sum of leaf and index does not wrap
  (`Lookup.GetByIndex`); it cannot wrap within the size (`Lookup.NoWrapWithin`), and beyond
  it does (`Lookup.WrapHappens`). A negative index is cut to 32 bits first
  (`Lookup.GetByIndex64`).
- Catching up to an end version below the initial one goes to the latest version instead
  (`MultiStates.CatchUpBelowInitial`).
- The log entry of a commit puts all upgrades, as one list, before all changes. After a change
  it describes the working trees if and only if the call succeeded
  (`WorkingState.WorkingDb.ApplyChangeSet`; a failed change stays in the entry,
  `WorkingState.UnknownChangeStays`), unless the change set that grows is pending twice
  (`PendingChanges.Pending.Add`). After a list of upgrades it does if the list can be moved up
  (`UpgradeOrders.CanMoveUp`): both lists in one go leave the stores that they leave one after
  the other, and every store with changes keeps its name. That condition speaks of names only.
  It suffices for all trees and changes (`MovedUpgrades.MovedUpReplays`), and where it fails
  there are trees of those names for which replay fails or gives other trees
  (`MovedUpgrades.StuckUpgradesFail`). `StoreLists.MergedUpgradesDiffer` is an instance.
- A rollback to a target in the log needs every snapshot to have a version below 2^31, and the
  newest one at or before the target to load; otherwise it fails and changes nothing
  (`Rollbacks.Store.RollBack`). `Rollbacks.UnreadableDisk` has a snapshot with a higher version,
  and `Rollbacks.RefusedDisk` one that is refused.
- After a stop between the switch of the link and the writes of the log, a load gives a version
  that the log does not have. A commit can be written if and only if the log has reached the
  current snapshot (`SnapshotProtocol.CommitsFit`), and otherwise never
  (`CommitProtocol.BehindIsStuck`). `SnapshotProtocol.SnapshotAhead` is a run that ends there.
- A rewrite started between two commits writes the working trees beside the commit info of the
  last version, and links them. From any state that snapshot loads if and only if the trees that
  were written have the names and hashes of the last commit (`SnapshotProtocol.LinkedLoadsIff`,
  `SnapshotProtocol.RewriteLoadsIff`); they have if nothing is pending (`SnapshotProtocol.RewriteOfCommitLoads`), and if all rewrites are
  started so, every load succeeds (`SnapshotProtocol.CarefulStop`).
  `SnapshotProtocol.UnsavedStoreIsRefused` is a run after which the database cannot be loaded.
- An export of a tree at the version of its snapshot is that of the snapshot; it is that of the
  tree if and only if the two are equal (`Exports.ExportTree`). `Exports.StaleExport` is a tree
  with a newer value.
- The changes of a store reported from the log are all that were applied if and only if no
  entry has a second change set with pairs for it (`StateChanges.FirstIsAll`);
  `StateChanges.SecondIsMissed` and `StateChanges.SecondIsApplied` are about one that has.
- `memiavl/README.md` and the code disagree on some sizes of the format; the code decides.

## Model

| member | source | states |
|---|---|---|
| `Bytes.LessIsTotalOrder` | memiavl/node.go:51-70 | the key comparison is a strict total order with the empty string least |
| `Bytes.GetPutLE` | memiavl/layout_little_endian.go:29-85 | a fixed-width little-endian field reads back as written, if it fits |
| `Iavl.SetNode` | memiavl/node.go:44-97 | keeps heights and sizes exact; an update of an existing key changes neither |
| `Iavl.RemoveNode` | memiavl/node.go:103-144 | keeps heights and sizes exact; when nothing is removed the subtree is returned as it was |
| `IavlProps.ReBalanceRestoresBalance` | memiavl/mem_node.go:136-161 | a node out of balance by two comes back balanced, at most one lower; a balanced one is untouched |
| `IavlProps.ReBalanceKeepsOrder` | memiavl/mem_node.go:110-161 | rotations keep the search order and the first and last keys |
| `IavlProps.SetKeepsBalance` | memiavl/node.go:71-96 | every set keeps the balance within one and grows the height by at most one |
| `IavlProps.RemoveKeepsBalance` | memiavl/node.go:115-143 | every removal keeps the balance within one and lowers the height by at most one |
| `IavlProps.SetKeepsOrder` | memiavl/node.go:44-97 | a branch key stays the smallest key of the right subtree; first and last keys are those of the new set |
| `IavlProps.RemoveKeepsOrder` | memiavl/node.go:99-144 | the same for removal; the new key passed up is the new first key exactly when the first key was removed |
| `IavlContents.ReBalanceKeepsLeaves` | memiavl/mem_node.go:136-161 | balancing moves no leaf |
| `IavlContents.SetUpsertsLeaves` | memiavl/node.go:44-97 | the leaves after a set are the sorted list with one entry put in or replaced, and the update flag tells which |
| `IavlContents.RemoveDeletesLeaf` | memiavl/node.go:103-144 | the leaves after a removal are the list without the key, and the value returned is the one it had |
| `IavlContents.MapOfUpsert` | memiavl/tree.go:259-272 | putting an entry into the list updates the map it stands for |
| `IavlContents.MapOfDelete` | memiavl/tree.go:274-279 | deleting from the sorted list removes the key from the map |
| `IavlContents.OpKeepsInvariant` | memiavl/tree.go:249-279 | one operation keeps order, balance, heights and sizes, and updates leaves and map |
| `IavlContents.RunKeepsInvariant` | memiavl/node.go:44-144 | the same over every run of sets and removes at any versions, from any well-formed tree |
| `IavlContents.SetStampsNew` | memiavl/node.go:62-90 | every node of the result is a node of the old tree or carries the new version |
| `IavlContents.RemoveStampsNew` | memiavl/node.go:115-143 | the same for removal |
| `IavlContents.BalancedHasMinLeaves` | memiavl/mem_node.go:90-101 | a balanced tree of a given height has at least a Fibonacci number of leaves |
| `IavlContents.HeightAtMost45` | memiavl/snapshot.go:542-581 | below 2^32 leaves the height is at most 45, so neither it nor the count of pending trees outgrows a byte |
| `SnapshotProps.EmitAppends` | memiavl/snapshot.go:563-581 | writing a tree appends the records of its post-order, whatever was written before |
| `SnapshotProps.StoredView` | memiavl/persisted_node.go:53-101 | a stored node reads back with the height, size, version, key, value and hash of its tree node |
| `SnapshotProps.ChildrenFound` | memiavl/persisted_node.go:104-132 | the index arithmetic finds exactly the two children, and the first and last leaf of a node |
| `SnapshotProps.SnapshotRoundTrip` | memiavl/snapshot.go:563-581 | for every well-formed tree below 2^32 leaves the root of the written snapshot stores the tree; no field is truncated |
| `SnapshotProps.StoredLeaves` | memiavl/persisted_node.go:225-236 | the leaves of a stored node are a contiguous run of the leaf records |
| `SnapshotProps.StoredTreeIsUnique` | memiavl/persisted_node.go:104-132 | a stored node stands for one tree only |
| `SnapshotFiles.DecodeEncodeBranch` | memiavl/layout_little_endian.go:19-51 | a branch record that fits its fields reads back from its 48 bytes |
| `SnapshotFiles.DecodeEncodeLeaf` | memiavl/layout_little_endian.go:62-85 | the same for a leaf record |
| `SnapshotFiles.ReadKeyValueBack` | memiavl/snapshot.go:259-292 | a key and value written at an offset are read back from there |
| `SnapshotFiles.ReadLeavesFile` | memiavl/snapshot.go:283-292 | all leaf records, with keys and values, are read back from the files |
| `SnapshotFiles.OpenReadsBack` | memiavl/snapshot.go:63-169 | opening the written files passes every size check and gives the same records |
| `SnapshotFiles.BranchRecordsFit` | memiavl/snapshot.go:542-559 | no field of any branch record is truncated |
| `SnapshotFiles.FilesRoundTrip` | memiavl/snapshot.go:368-465 | the bytes written for a tree open to a snapshot whose root stores that tree |
| `SnapshotWriters.SnapshotWriter.WriteKeyValue` | memiavl/snapshot.go:490-511 | appends the length-prefixed key and value and moves the offset by what was written |
| `SnapshotWriters.SnapshotWriter.WriteLeaf` | memiavl/snapshot.go:513-540 | files and counters stay those of the records written, one leaf more |
| `SnapshotWriters.SnapshotWriter.WriteBranch` | memiavl/snapshot.go:542-559 | the same for a branch |
| `SnapshotWriters.SnapshotWriter.WriteRecursive` | memiavl/snapshot.go:563-581 | writes the records of the abstract tree, for any mixture of heap and stored nodes |
| `SnapshotWriters.WriteSnapshot` | memiavl/snapshot.go:368-465 | the three files open to a snapshot that stores the tree, or to an empty one |
| `MemTree.InspectAgrees` | memiavl/persisted_node.go:61-132 | a heap node and a stored node show the same fields of the same abstract node |
| `MemTree.Mutate` | memiavl/mem_node.go:62-71 | a node above the copy-on-write version is changed in place, any other cloned; its fields are kept, the version new, the hash dropped |
| `MemTree.MutateBranch` | memiavl/persisted_node.go:145-165 | the mutated node stands for the same branch with the new version, and only an owned root is written |
| `MemTree.UpdateHeightSize` | memiavl/mem_node.go:90-93 | height and size become exact for the two children |
| `MemTree.CalcBalance` | memiavl/mem_node.go:95-101 | the balance of the abstract node |
| `MemTree.RotateRight` | memiavl/mem_node.go:110-117 | does what the reference rotation does, writing only the node and an owned left child |
| `MemTree.RotateLeft` | memiavl/mem_node.go:126-133 | the mirror image |
| `MemTree.ReBalance` | memiavl/mem_node.go:136-161 | does what reference balancing does, writing only owned nodes |
| `MemTree.SetLeaf` | memiavl/node.go:50-70 | the three cases of a set at a leaf, in place when the leaf is owned |
| `MemTree.SetRecursive` | memiavl/node.go:44-97 | equals the reference set for every mixture of nodes and copy-on-write version; writes only owned nodes; no stale hash |
| `MemTree.RemoveRecursive` | memiavl/node.go:103-144 | equals the reference removal in value, tree and new key, with the same frame |
| `MemHash.SameNodeSameTree` | memiavl/mem_node.go:12-59 | two descriptions of one node describe one tree |
| `MemHash.HashNode` | memiavl/node.go:148-207 | computes the hash of the abstract tree, through and into the memo fields, changing nothing else |
| `MemHash.MemoShared` | memiavl/mem_node.go:79-88 | hashing one tree leaves the memos of a tree that shares nodes with it correct |
| `Lookup.RankDivides` | memiavl/mem_node.go:163-181 | the rank of a key parts the smaller keys from the others |
| `Lookup.RankFinds` | memiavl/persisted_node.go:184-196 | a key is present exactly if the entry at its rank has it |
| `Lookup.SearchLeaves` | memiavl/persisted_node.go:179-182 | the binary search over leaf records returns the rank |
| `Lookup.GetPersisted` | memiavl/persisted_node.go:167-197 | value and rank of a key in a stored subtree |
| `Lookup.Get` | memiavl/mem_node.go:163-181 | the same by descent through any mixture of nodes, with the 32-bit rank |
| `Lookup.GetByIndexPersisted` | memiavl/persisted_node.go:199-216 | the leaf at an index, unless the 32-bit sum wraps; then some leaf is returned for an index out of range |
| `Lookup.GetByIndex` | memiavl/mem_node.go:183-199 | right if and only if no stored part wraps |
| `Lookup.GetByIndex64` | memiavl/tree.go:329-343 | an index of 2^32 or more finds nothing; a negative one is cut to 32 bits, and which indices find a leaf, and the right one, is exact |
| `Lookup.NoWrapWithin` | memiavl/persisted_node.go:211-215 | nothing wraps for an index up to the size |
| `Lookup.WrapHappens` | memiavl/persisted_node.go:211-215 | it does wrap for the largest index, in every stored tree with a branch on its right |
| `TreeStates.EditIsSound` | memiavl/tree.go:259-279 | an edit keeps a tree well formed with no node newer than the next version |
| `TreeStates.SaveIsSound` | memiavl/tree.go:282-301 | so does saving a version, with the overflow refused |
| `TreeStates.InitialIsSound` | memiavl/tree.go:208-228 | so does setting the initial version |
| `TreeStates.FindAfterEdit` | memiavl/tree.go:259-279 | an edit changes the lookup of its own key only |
| `Trees.Tree.constructor` | memiavl/tree.go:157-198 | a tree at a version, which owns none of its nodes |
| `Trees.Tree.Set` | memiavl/tree.go:259-272 | the edited state, an agreeing cache, and writes to owned nodes only; a missing value becomes an empty one |
| `Trees.Tree.Remove` | memiavl/tree.go:274-279 | the same for removal |
| `Trees.Tree.ApplyChangeSet` | memiavl/tree.go:249-257 | all pairs of a change set in order |
| `Trees.Tree.RootHash` | memiavl/tree.go:310-315 | the hash of the abstract tree, or of nothing |
| `Trees.Tree.SaveVersion` | memiavl/tree.go:282-301 | the next version and, if asked, the root hash; at the highest version an error and no change |
| `Trees.Tree.SetInitialVersion` | memiavl/tree.go:208-228 | refused where it does not fit; otherwise the version before the first |
| `Trees.Tree.Get` | memiavl/tree.go:345-369 | the cached lookup equals the lookup in the tree, whatever was evicted |
| `Trees.Tree.Copy` | memiavl/tree.go:230-246 | the same state in both trees; nothing is owned, as at a version boundary, if and only if no key of the tree has an owned node on its path |
| `Trees.WriteAfterCopy` | memiavl/tree.go:230-272 | for every tree and every key in it: after a copy and a write to the original, the copy still stands for its tree if and only if no node on the path of the key was owned; if one was, the copy shows the new value |
| `Trees.ExposedIffOwned` | memiavl/tree.go:230-246 | a tree owns a node if and only if the path of some key in it has an owned node |
| `Sharing.OwnedHasKey` | memiavl/mem_node.go:62-71 | every tree that owns a node has a key whose update changes a node in place |
| `Sharing.ShownHolds` | memiavl/node.go:62-90 | after an update the old root still stands for a tree: old nodes down to the first one changed in place, new ones below |
| `Sharing.ShownFinds` | memiavl/node.go:62-90 | that tree has the new value if a node on the path was owned |
| `Trees.NothingOwned` | memiavl/mem_node.go:62-71 | no node newer than the copy-on-write version, no node owned |
| `Trees.CacheAfterEdit` | memiavl/tree.go:259-279 | the cache agrees with the tree after every edit and eviction |
| `Trees.DirtyCopyChanges` | memiavl/tree.go:230-246 | a copy taken between versions is changed by the next write to the original |
| `ForestStates.RunIsOwn` | memiavl/tree.go:230-294 | over every run on any number of trees, a tree is what its own operations make of it |
| `ForestStates.CopyIsOwn` | memiavl/tree.go:230-246 | a copy is what its own operations make of the state it was taken from |
| `Forests.DoWrite` | memiavl/tree.go:259-279 | a write to one tree leaves all others as they are, though nodes are shared |
| `Forests.DoHash` | memiavl/tree.go:310-315 | hashing one tree leaves every other tree and every memo right |
| `Forests.DoSave` | memiavl/tree.go:282-294 | saving one tree returns its hash and leaves the others as they are |
| `Forests.DoCopy` | memiavl/tree.go:230-246 | a copy at a version boundary keeps all trees apart |
| `Forests.RunAll` | memiavl/tree.go:230-315 | every run on shared heap nodes gives the trees and hashes of the run on plain values |
| `Exports.FromStream` | memiavl/snapshot.go:317-347 | merging leaf and branch records by pending trees gives the post-order of a subtree |
| `Exports.Export` | memiavl/snapshot.go:299-348 | the stream is the post-order of the stored tree, up to the node after which the callback stops it |
| `Exports.ScanPostOrder` | memiavl/tree.go:392-414 | the scan with an explicit stack gives the same stream, up to the node where the callback stops it |
| `Exports.ExportTree` | memiavl/tree.go:392-439 | the post-order of the snapshot or of the tree; the tree is what is exported if and only if the versions differ or it is the tree that was written |
| `Exports.SameStream` | memiavl/tree.go:392-414 | two trees have one stream only if they are equal |
| `Exports.StaleExport` | memiavl/tree.go:420-427 | an input: a tree written to after its snapshot exports the old value |
| `Imports.ParseStream` | memiavl/import.go:178-235 | a post-order stream is taken back to its tree on top of the stack |
| `Imports.StreamOfParse` | memiavl/import.go:178-235 | what was taken is the post-order of the trees on the stack, so no other stream gives them |
| `Imports.EmitAllJoin` | memiavl/import.go:197-234 | a branch record joins the last two trees, with the same pending count and key leaf as the recursive writer |
| `Imports.Importer.Add` | memiavl/import.go:178-235 | refuses a version out of range and a branch with fewer than two subtrees; else the files are those of the trees on the stack |
| `Imports.DoImport` | memiavl/import.go:142-167 | succeeds exactly for no node or one whole tree, and writes what the snapshot writer writes for it |
| `Imports.ImportRestoresExport` | memiavl/import.go:142-235 | importing the export of a tree gives files that open to a snapshot storing that tree |
| `Iterators.Pruned` | memiavl/iterator.go:98-116 | a subtree that is not pushed has no key in the range |
| `Iterators.VisitedExactly` | memiavl/iterator.go:9-20 | the leaves to visit are exactly those in the range, strictly ascending or descending |
| `Iterators.PushChildren` | memiavl/iterator.go:98-116 | pushing the children keeps what lies ahead and lowers the count of nodes on the stack |
| `Iterators.Turn` | memiavl/iterator.go:84-117 | one turn of the loop finds the next leaf or nothing, and always gets on |
| `Iterators.Iterator.constructor` | memiavl/iterator.go:22-38 | stands at the first leaf of the range, or is not valid |
| `Iterators.Iterator.Next` | memiavl/iterator.go:77-118 | moves to the next leaf of the range, or becomes invalid at the end |
| `Iterators.Collect` | memiavl/iterator.go:22-118 | the whole iteration gives every pair of the range once, in order |
| `ProofOps.ConvertInnerOps` | memiavl/proof.go:128-165 | the inner operations of a path, from the leaf up |
| `ProofOps.InnerOpHashes` | memiavl/proof.go:128-165 | an inner operation applied to a child hash gives the hash of the branch |
| `ProofOps.LeafOpHashes` | memiavl/proof.go:113-125 | the leaf operation gives the hash of the leaf |
| `ProofOps.PathFolds` | memiavl/proof.go:173-211 | folding the operations along a path gives the root hash |
| `ProofOps.LeafForFinds` | memiavl/proof.go:173-211 | the path ends at the leaf of the key exactly if the key is present |
| `Proofs.PathToLeaf` | memiavl/proof.go:173-211 | the path with the sibling hashes, and the leaf if it has the key |
| `Proofs.CreateExistenceProof` | memiavl/proof.go:90-111 | a proof that folds to the root hash for every present key, and none for any other |
| `Proofs.AbsentBetween` | memiavl/proof.go:41-80 | an absent key lies strictly between two consecutive leaves |
| `Proofs.ProveLeaf` | memiavl/proof.go:53-74 | a proof for the leaf at an index, if there is one |
| `Proofs.GetNonMembershipProof` | memiavl/proof.go:41-80 | valid proofs of the neighbours of an absent key; an error for a present key and for an empty tree |
| `Varint.UvarintPut` | memiavl/wal.go:93-103 | a variable-width integer reads back with its length |
| `Varint.UvarintCut` | memiavl/wal.go:93-103 | one that is cut short does not read |
| `Wal.ReadEntries` | memiavl/wal.go:242-259 | the entries of a segment, and whether bytes are left over |
| `Wal.TruncateCorruptedTail` | memiavl/wal.go:49-76 | the file is cut after its last whole entry |
| `Wal.CutLog` | memiavl/wal.go:49-103 | of a log cut at any byte, exactly the entries complete before the cut are read |
| `Wal.RepairedLog` | memiavl/wal.go:49-76 | the repaired file is the log of those entries |
| `Wal.WholeLog` | memiavl/wal.go:93-103 | a log that is not cut reads back whole |
| `ReadOnlyLog.ReadOnlyWal.Read` | memiavl/wal.go:278-312 | a read through the segment cache gives what the files hold |
| `ReadOnlyLog.ReadIndexesLog` | memiavl/wal.go:278-312 | reading by index is indexing into the concatenation of the segments; any other index is not found |
| `ReadOnlyLog.WrittenSegments` | memiavl/wal.go:242-312 | segments written whole, the last one cut anywhere, hold the entries complete before the cut |
| `WalSegments.ListSegments` | memiavl/wal.go:187-237 | the choice of segments among the files of a directory |
| `WalSegments.RefusedIff` | memiavl/wal.go:233-235 | a directory is refused if and only if it has cuts at both ends |
| `WalSegments.FrontStopsAnywhere` | memiavl/wal.go:205-232 | a truncation of the front that stopped at any step, with any of the void segments removed: the segments chosen hold the whole log, or all of it from the new first index on |
| `WalSegments.BackStopsAnywhere` | memiavl/wal.go:205-232 | the same for the back |
| `MultiStates.IndexOfVersion` | memiavl/multitree.go:540-561 | log index and version undo each other, and the next version has the next index |
| `MultiStates.ReplayKeepsStep` | memiavl/multitree.go:213-319 | replaying an entry keeps the versions of all stores in step and moves on by one |
| `MultiStates.StateVersions` | memiavl/multitree.go:540-561 | the state after any part of the history has the version of its log index |
| `MultiStates.CatchUpIsIndependent` | memiavl/multitree.go:373-422 | catching up to a version gives one state, whichever earlier state it starts from; the error cases are exact |
| `MultiStates.CatchUpBelowInitial` | memiavl/multitree.go:388-402 | an end version below the initial one leads to the latest state |
| `StoreLists.UpgradeShows` | memiavl/multitree.go:228-253 | an upgrade of the list, swap deletion included, is the upgrade of the map of stores where no name is taken twice |
| `StoreLists.SortedSorts` | memiavl/multitree.go:255-257 | the list comes out in order of names with the same stores |
| `StoreLists.SortedShows` | memiavl/multitree.go:255-257 | sorting keeps the map of stores |
| `StoreLists.SortedDistinct` | memiavl/multitree.go:255-264 | sorting neither makes nor mends a clash of names |
| `StoreLists.MergedUpgradesDiffer` | memiavl/multitree.go:221-268 | two lists applied as one can leave another store than one after the other, if they clash |
| `StoreLists.OneList` | memiavl/multitree.go:255-264 | the list of stores in name order is determined by the map of stores |
| `StoreLists.UpgradeAllIsEach` | memiavl/multitree.go:221-268 | a list of upgrades is its upgrades of the map one by one, where no name is taken twice on the way |
| `StoreLists.UpgradeAllHolds` | memiavl/multitree.go:228-253 | every store after a list of upgrades was there before or is new |
| `StoreLists.UpgradeAllLeavesAlone` | memiavl/multitree.go:228-253 | a store that no upgrade names stays as it is |
| `StoreLists.AdditionsAdd` | memiavl/multitree.go:246-264 | additions alone succeed exactly if all names are new and different, and add just those stores |
| `UpgradeLabels.UpgradesPermute` | memiavl/multitree.go:228-253 | the order of the stores decides nothing if no upgrade looks up a name that stands for two different stores then |
| `UpgradeOrders.UpgradeByLabels` | memiavl/multitree.go:228-264 | upgrades look at names only: they move stores as they move labels |
| `UpgradeOrders.ClearLists` | memiavl/db.go:400-415 | two lists logged as one leave the same stores if the second never looks up a name that stands for two different ones |
| `UpgradeOrders.SingleList` | memiavl/db.go:400-415 | a single list before all changes can always be logged, whether a name is taken twice on the way or not |
| `UpgradeOrders.UntouchedStay` | memiavl/multitree.go:213-218 | upgrades may come after changes of stores that they do not name |
| `MovedUpgrades.MovedUpReplays` | memiavl/multitree.go:213-218 | if upgrades made after changes can be moved up, applying the entry gives the working trees, for all trees and changes |
| `MovedUpgrades.StuckUpgradesFail` | memiavl/multitree.go:213-218 | if they cannot, there are trees of the same names and changes to the same stores for which replay fails or gives other trees |
| `MultiTrees.BuildIndex` | memiavl/multitree.go:258-264 | the index of names, or an error exactly if a name comes twice |
| `MultiTrees.MultiTree.constructor` | memiavl/multitree.go:58-66 | no stores, at version zero |
| `MultiTrees.MultiTree.ApplyUpgrades` | memiavl/multitree.go:221-268 | the upgraded stores; fails exactly for an unknown name or a name that stands twice at the end |
| `MultiTrees.MultiTree.ApplyChangeSet` | memiavl/multitree.go:271-278 | changes one store, or fails for an unknown name with no change |
| `MultiTrees.MultiTree.ApplyChangeSets` | memiavl/multitree.go:281-288 | all changes in order, failing exactly at an unknown name |
| `MultiTrees.MultiTree.SaveVersion` | memiavl/multitree.go:297-324 | all stores move on, or none if any is at the highest version; the commit info is that of the new trees, or has no stores if it is not asked for |
| `MultiTrees.MultiTree.UpdateCommitInfo` | memiavl/multitree.go:322-343 | name, version and root hash of every store, in order of names |
| `MultiTrees.MultiTree.Open` | memiavl/multitree.go:74-117 | the trees found, in any order, become the stores in order of their names |
| `MultiTrees.LoadMultiTree` | memiavl/multitree.go:65-130 | a snapshot is loaded exactly if its commit info is that of the trees found |
| `MultiTrees.CommitInfoEqual` | memiavl/multitree.go:345-365 | the comparison of versions, names and hashes is equality |
| `CommitInfos.LoadsIff` | memiavl/multitree.go:121-129 | for any trees and any last commit: the load succeeds if and only if the stores have its names, versions and hashes, and the first one its version |
| `CommitInfos.RewrittenLoads` | memiavl/multitree.go:121-129 | for trees in step with the last commit: if and only if names and hashes are the same |
| `CommitInfos.CommittedLoads` | memiavl/multitree.go:476-513 | a state at a version boundary loads as it was written |
| `CommitInfos.LoadedIsAtBoundary` | memiavl/multitree.go:121-129 | what was loaded in step is at a version boundary |
| `CommitInfos.LoadsOnlyCommitted` | memiavl/multitree.go:121-129 | where no two strings hashed for the trees collide, the load gives the last commit or is refused, and it is refused exactly if a tree is another one |
| `HashBinding.PreimageTells` | memiavl/node.go:148-191 | the string hashed for a node tells its kind, height, size, version, key and value hash, or the hashes of its children |
| `HashBinding.RootHashTells` | memiavl/node.go:194-208 | two search trees have one root hash if and only if they are equal, unless two different strings hashed for them collide |
| `MultiTrees.MultiTree.ApplyWalEntry` | memiavl/multitree.go:213-218 | upgrades, then changes, on the stores by name; it succeeds exactly where they do |
| `MultiTrees.MultiTree.CatchupWal` | memiavl/multitree.go:373-422 | succeeds exactly where catching up on values does, and reaches the same state; the commit info is up to date if anything was replayed |
| `PendingLogs.ChangesByStore` | memiavl/multitree.go:281-288 | a list of changes does to each store what its own pairs do, in order |
| `PendingLogs.SamePairsSameTrees` | memiavl/db.go:459-476 | lists with the same pairs for every store do the same |
| `PendingLogs.MergeKeeps` | memiavl/db.go:459-476 | a change merged into the list does what it does after the list |
| `PendingLogs.AppendToLast` | memiavl/db.go:469-471 | appending to the last change set of a store adds its pairs at the end |
| `PendingLogs.InsertNew` | memiavl/db.go:522-542 | inserting a change set of a new store anywhere adds its pairs |
| `PendingChanges.Search` | memiavl/db.go:533-535 | the binary search returns a place between the smaller names and the others, if they are sorted |
| `PendingChanges.Pending.SetAll` | memiavl/db.go:478-520 | the list is taken over, with an index to the last change set of each store |
| `PendingChanges.Pending.Add` | memiavl/db.go:459-542 | the change is merged into the list if and only if the change set it is added to is not in the list twice; names stay in order if they were |
| `PendingChanges.Pending.Insert` | memiavl/db.go:522-542 | a new store is put in its place and nothing else changes |
| `WorkingState.WorkingDb.constructor` | memiavl/db.go:319-335 | nothing is pending after a load, before initial stores are added |
| `WorkingState.WorkingDb.AddInitialStores` | memiavl/db.go:337-347 | a database without a version gets its initial stores as pending upgrades that the entry describes; fails exactly for a name that is known or comes twice |
| `WorkingState.WorkingDb.ApplyUpgrades` | memiavl/db.go:400-415 | the upgrades are added to the entry, which still describes the working trees if they can be moved up |
| `WorkingState.WorkingDb.ApplyChangeSet` | memiavl/db.go:448-476 | a described state stays described if and only if the call succeeds, which it does exactly for a known store or no pairs |
| `WorkingState.WorkingDb.ApplyChangeSets` | memiavl/db.go:419-444 | both paths apply the changes in order and succeed exactly when each store is known; a described state stays described, whatever objects are passed in |
| `WorkingState.WorkingDb.Commit` | memiavl/db.go:709-760 | the entry holds all that is pending, and the commit info is that of the new trees; if the entry describes the working trees, replaying it on the last committed state gives the new one |
| `WorkingState.DescribesAdded` | memiavl/db.go:459-476 | a change merged into the entry keeps it describing the working trees exactly if its store is known |
| `WorkingState.UnknownChangeStays` | memiavl/db.go:459-476 | an entry with a change to an unknown store cannot be replayed |
| `StateChanges.FindChanges` | memiavl/tree.go:518-524 | the first change set of the store |
| `StateChanges.FirstIsAll` | memiavl/tree.go:517-527 | it is all that was applied, if and only if no later one of the entry has pairs |
| `StateChanges.SecondIsMissed` | memiavl/tree.go:517-527 | an input: of two change sets for one store the first is reported |
| `StateChanges.SecondIsApplied` | memiavl/multitree.go:281-288 | and both are applied |
| `StateChanges.TraverseStateChanges` | memiavl/tree.go:469-533 | exactly the versions of the range that the log holds, in order, up to the call that fails; an error exactly for such a call or a negative end |
| `StateChanges.ReportLeadsOn` | memiavl/tree.go:469-533 | applying what is reported between two versions to the tree of the one gives the tree of the other |
| `CommitProtocol.StepKeepsInv` | memiavl/db.go:709-836 | every step of committer and writer keeps: log, batch, channel and entry in hand are the saved versions in order |
| `CommitProtocol.RunKeepsInv` | memiavl/db.go:709-836 | so does every interleaving |
| `CommitProtocol.LogIsPrefix` | memiavl/db.go:762-815 | the log is a gap-free prefix of the committed entries after every run |
| `CommitProtocol.LogOnlyGrows` | memiavl/db.go:1549-1561 | no step takes an entry off the log or writes one out of turn |
| `CommitProtocol.WaitLeavesNothing` | memiavl/db.go:825-836 | a wait that ends without an error, at once or later, leaves nothing unwritten |
| `CommitProtocol.NextFits` | memiavl/db.go:1549-1561 | the next entry is refused if and only if the log is behind the version loaded |
| `CommitProtocol.GapStays` | memiavl/db.go:762-815 | once the log is behind and no entry in flight fits it, it never changes again, whatever is done |
| `CommitProtocol.BehindIsStuck` | memiavl/db.go:709-815 | a database loaded ahead of its log never writes to it |
| `CommitProtocol.LatchStopsVersions` | memiavl/db.go:552-563 | after an error is latched no version is saved, but for a commit already past its check |
| `Disks.LoadsCommitted` | memiavl/db.go:276-280 | a load of a sound disk gives the committed state at the later of current snapshot and log, or fails, exactly if the current snapshot does not hold the trees of its version |
| `Disks.LoadsVersion` | memiavl/db.go:276-280 | loading a version gives the committed state from any snapshot before it that holds the trees of its own |
| `Disks.SnapshotLoadsIff` | memiavl/multitree.go:121-129 | every snapshot on a sound disk loads if and only if its stores have the names and hashes of its version |
| `Disks.SnapshotLoads` | memiavl/multitree.go:121-129 | without a collision it loads as the committed state of its version, or not at all |
| `Disks.CutFrontIsSound` | memiavl/db.go:692-704 | cutting the log after the earliest snapshot keeps every load |
| `SnapshotProtocol.CutPointIsAfter` | memiavl/db.go:696-704 | the cut never takes an entry that the earliest snapshot needs |
| `SnapshotProtocol.SwitchIsInvisible` | memiavl/db.go:596-640 | the switch to the rewritten snapshot never fails, and leaves working trees, pending changes and commit info as they were |
| `SnapshotProtocol.RemovesOnlyOld` | memiavl/db.go:657-684 | a pass removes a snapshot only below the link as it was read, with the kept number of newer ones between |
| `SnapshotProtocol.StepKeepsInv` | memiavl/db.go:596-994 | every step of changes, commit, writer, rewrite and pruning keeps the disk sound and takes back no version; a rewrite may start with changes pending, and its copy of a tree that was written to may turn into another tree |
| `SnapshotProtocol.RunKeepsInv` | memiavl/db.go:596-994 | so does every interleaving |
| `SnapshotProtocol.StopAnywhere` | memiavl/db.go:864-885 | after a stop at any step a load gives the committed state at the later of link and log, or is refused, exactly if the current snapshot does not hold the trees of its version |
| `SnapshotProtocol.LinkedLoadsIff` | memiavl/db.go:864-990 | whatever later writes did to the copy: the snapshot that was linked loads if and only if its trees have the names and hashes of its version |
| `SnapshotProtocol.RewriteLoadsIff` | memiavl/db.go:864-990 | from any state, with no change in between: the snapshot that a rewrite linked loads if and only if the working trees have the names and hashes of the last commit |
| `SnapshotProtocol.RewriteOfCommitLoads` | memiavl/db.go:864-990 | so it loads, as the last version, if nothing is pending |
| `SnapshotProtocol.CarefulStop` | memiavl/db.go:596-994 | if rewrites start with nothing pending, a load succeeds wherever a run stops, with no word about hashes |
| `SnapshotProtocol.UnsavedStoreIsRefused` | memiavl/db.go:942-990 | an input: a store is added, a rewrite is linked, and the database cannot be loaded |
| `SnapshotProtocol.CommitsFit` | memiavl/db.go:864-885 | after a stop at any step the next commit fits the log if and only if the log has reached the current snapshot |
| `SnapshotProtocol.SnapshotAhead` | memiavl/db.go:864-885 | an input: a version is saved and a rewrite linked before the log is written |
| `Rollbacks.Store.SeekSnapshot` | memiavl/db.go:1321-1357 | the newest snapshot at or before the target; when each error comes is exact: there is none, or the version in a name needs more than 31 bits |
| `Rollbacks.Store.RemoveNewer` | memiavl/db.go:293-306 | removes every snapshot after the target; on each disk on the way the snapshot sought is linked and loads |
| `Rollbacks.Store.Locate` | memiavl/db.go:225-274 | finds and loads the snapshot before anything is changed; when it fails is exact |
| `Rollbacks.Store.Rewind` | memiavl/db.go:282-318 | moves the link, removes the newer snapshots and cuts the log, in that order; on each disk in between the snapshot is linked and loads |
| `Rollbacks.Store.RollBack` | memiavl/db.go:225-318 | it succeeds if and only if all names can be read, the target is in the log, and the newest snapshot at or before it loads; otherwise nothing changes. Then log and snapshots end at the target, and on every disk on the way, without a collision, a load gives a committed state at or after it |
| `Rollbacks.Store.LoadForOverwriting` | memiavl/db.go:225-318 | with the catch-up in between, which never fails: what is loaded is the committed state at the target |
| `Rollbacks.LoadsCommittedAtLeast` | memiavl/db.go:282-318 | on every disk on the way a load gives a committed state at or after the target |
| `Rollbacks.CutBackIsSound` | memiavl/db.go:313-316 | the log cut back is sound for the shortened history |
| `Rollbacks.TargetIndex` | memiavl/db.go:262-273 | a target in range is the version of an entry of the history |
| `Rollbacks.FirstDecides` | memiavl/db.go:1321-1332 | every name can be read if and only if the first of the descending walk can |
| `Rollbacks.UnreadableDisk` | memiavl/db.go:1321-1332 | a sound disk and a target in range with a snapshot before it, where a name cannot be read |
| `Rollbacks.RefusedDisk` | memiavl/db.go:236-240 | an input: all names can be read, a target is in range with a snapshot before it, and that snapshot is refused |
| `HistoricalCaches.HistoricalCache.constructor` | store/rootmulti/store.go:50-55 | empty and open; a size that is not positive becomes the default |
| `HistoricalCaches.HistoricalCache.Lookup` | store/rootmulti/store.go:57-70 | the entry of a version moves to the front with one more reference; otherwise nothing changes |
| `HistoricalCaches.HistoricalCache.BeginBorrow` | store/rootmulti/store.go:74-84 | a hit, a miss, or an error exactly if the cache is closed; the whole new state |
| `HistoricalCaches.HistoricalCache.EndBorrow` | store/rootmulti/store.go:99-131 | the loaded database is put in unless the cache was closed or has the version by now; the oldest entry makes room; the whole new state |
| `HistoricalCaches.HistoricalCache.Release` | store/rootmulti/store.go:133-148 | one reference less, and the last one of an evicted entry closes its database; more releases than borrows panic and change nothing |
| `HistoricalCaches.HistoricalCache.Close` | store/rootmulti/store.go:150-167 | no entry is left; databases nobody holds are closed, the others at their last release |
| `HistoricalCaches.HistoricalCache.EvictOldest` | store/rootmulti/store.go:117-124 | the last entry leaves the list, and its database is closed if nobody holds it |
| `HistoricalStates.AddedKeeps` | store/rootmulti/store.go:113-131 | putting an entry in keeps the list within its limit with one entry a version, and every database of an entry closed at most once, never while referenced |
| `HistoricalStates.ReleasedKeeps` | store/rootmulti/store.go:133-148 | the same for a release |
| `HistoricalStates.ShutKeeps` | store/rootmulti/store.go:150-167 | the same for closing, which evicts every entry and forgets none |
| `HistoricalProtocol.StepKeepsInv` | store/rootmulti/store.go:57-167 | every step of every caller keeps: references are the callers that hold the entry, places of the semaphore are the loads in flight, and every loaded database belongs to one load or one entry or is closed once |
| `HistoricalProtocol.BorrowingIsSafe` | store/rootmulti/store.go:31-167 | over every run of any number of callers: references are holders, no database is closed twice or while held, and loads and entries stay within the limit |
| `HistoricalProtocol.AllClosedInTheEnd` | store/rootmulti/store.go:97-167 | after close, when no caller loads or holds, every database ever loaded has been closed exactly once |
| `ChangeSets.UvarintSizeIsLength` | versiondb/client/changeset.go:356-364 | the size computed from the bit length is the length of the encoding |
| `ChangeSets.SizeIsLength` | versiondb/client/changeset.go:108-120 | the computed size of a pair is the length of its encoding |
| `ChangeSets.EncodeKVPair` | versiondb/client/changeset.go:122-142 | the buffer filled in place holds the encoding, no byte more |
| `ChangeSets.ReadPairBack` | versiondb/client/changeset.go:144-192 | a pair reads back; a delete carries no value |
| `ChangeSets.ReadPairsBack` | versiondb/client/changeset.go:88-103 | all pairs of a payload read back, up to its exact size |
| `ChangeSets.ReadVersionBack` | versiondb/client/changeset.go:70-106 | a version reads back with the byte count, parsed or skipped |
| `ChangeSets.StreamBack` | versiondb/client/changeset.go:234-303 | a written stream reads back in order up to its end, a stop or an error of the callback, with the offset of what was dealt with; skipping visits the same versions |
| `ChangeSets.WriteChangeSet` | versiondb/client/changeset.go:26-68 | writes the encoding of a version |
| `ChangeSets.ReadChangeSet` | versiondb/client/changeset.go:70-106 | reads as the decoder does, errors and skipping included |
| `ChangeSets.Iterate` | versiondb/client/changeset.go:234-303 | visits the versions of a file up to a stop, an end, or an error of reading or of the callback, with the offset reached |
| `Deltas.DiffOffset` | versiondb/extsort/delta_encoding.go:69-89 | the length of the longest common prefix |
| `Deltas.DecodeItemBack` | versiondb/extsort/delta_encoding.go:17-67 | an item coded against the last one decodes to itself, whatever follows |
| `Deltas.DecodeItemsBack` | versiondb/extsort/delta_encoding.go:17-67 | so does a whole list |
| `Deltas.DeltaEncoder.Write` | versiondb/extsort/delta_encoding.go:17-36 | appends the coded item and remembers it |
| `Deltas.DeltaDecoder.Read` | versiondb/extsort/delta_encoding.go:47-67 | decodes one item and remembers it; an error, the end, or a slice out of range changes nothing, and when each comes is exact |
| `SorterItems.DecodeSorterItemBack` | versiondb/client/convert_to_sst.go:205-263 | an item of the sorter decodes to its pair and timestamp |
| `SorterItems.LessItemIsBefore` | versiondb/client/convert_to_sst.go:265-281 | items compare by key, then by descending version |
| `SorterItems.CompareKeysIsBefore` | versiondb/tsrocksdb/comparator.go:18-69 | so do the keys of the database; equal means same key and version |
| `SorterItems.SorterOrderIsDatabaseOrder` | versiondb/tsrocksdb/comparator.go:44-69 | the order of the sorter is the order of the database |
| `SorterItems.LessItemIsWeakOrder` | versiondb/client/convert_to_sst.go:265-281 | on all byte strings the comparison is an order that a sorter can use |
| `Merges.Down` | versiondb/extsort/merge.go:38-83 | sifting down mends a heap with one bad place and keeps all items |
| `Merges.RootIsLeast` | versiondb/extsort/merge.go:38-51 | the root of a heap is least |
| `Merges.MultiWayMerge.constructor` | versiondb/extsort/merge.go:17-36 | a heap of the first items of all streams that are not empty |
| `Merges.MultiWayMerge.Next` | versiondb/extsort/merge.go:68-83 | returns a least item of all streams and takes it out; an exhausted stream leaves the heap |
| `Merges.Drain` | versiondb/extsort/merge.go:67-110 | the merged stream is a sorted permutation of all items |
| `ExtSorts.SaveItems` | versiondb/extsort/sort.go:220-253 | a chunk file loads back to the items, with delta coding and without |
| `ExtSorts.SortChunkAscends` | versiondb/extsort/sort.go:221-224 | a sorted chunk ascends |
| `ExtSorts.LoadFile` | versiondb/extsort/sort.go:162-199 | a chunk file read to its end gives its items, or an error |
| `ExtSorts.ExtSorter.Feed` | versiondb/extsort/sort.go:104-128 | takes the item or refuses one too long; the chunk rotates exactly when its size reaches the limit and a file can be created for it |
| `ExtSorts.ExtSorter.ChunkDone` | versiondb/extsort/sort.go:130-143 | a background task that ends, in any order, leaves its file or notes its failure, and no item is lost unless one is noted |
| `ExtSorts.ExtSorter.Finalize` | versiondb/extsort/sort.go:148-202 | the merge holds all items fed; it fails if and only if the last file cannot be created or a file of one of the tasks could not be written |
| `ExtSorts.SortAll` | versiondb/extsort/sort.go:66-101 | a sorted permutation of the input for every chunk size and encoding; it fails if and only if a file of one of the chunks cannot be created or written |

## Left out

- Trees.Tree.constructor: the shared cache is one map with arbitrary evictions; its split into shards by key hash and their capacities are not modelled.
- MultiTrees.MultiTree.SaveVersion: the stores are tree states, the heap being modelled one level below.
- WorkingState.WorkingDb.ApplyChangeSets: a caller that keeps the change sets it passed in, and alters them later, is not modelled.
- StateChanges.TraverseStateChanges: waiting for the log to catch up is taken as done.
- SnapshotProtocol.StepKeepsInv: calls after which the log entry does not describe the trees are left to `WorkingState` and `MovedUpgrades`; a load that only a collision of hashes lets through, and a copy that later writes turn into something that is no search tree, are left out of runs.
- Rollbacks.Store.RollBack: the catch-up between loading and rewinding is left to `LoadForOverwriting`, which asks that no hashes collide; on a state that only a collision let through it could fail.
- Deltas.DeltaDecoder.Read: an item too large for memory is not modelled.
- ExtSorts.ExtSorter.ChunkDone: the in-memory sort is taken as a stable one; an error of seeking in a file is not modelled.
- ChangeSets.Iterate: compression and the opening of files are not modelled.
- Wal.ReadEntries: the JSON form of the log, and reading a segment that was renamed meanwhile under its final name, are not modelled.
- Wal.TruncateCorruptedTail: the JSON form of the log is not modelled.
- WalSegments.ListSegments: a name is taken as parsed into index and suffix; the steps of a truncation are those of tidwall/wal as the reader expects them.
- Proofs.CreateExistenceProof: the verifier of ICS 23 is not part of the model, nor is its refusal of empty keys and values.
- SnapshotWriters.WriteSnapshot: cancellation, write errors and the metadata file are not modelled.
- The difference between a nil and an empty byte slice: stored values are never nil, and no branch key is empty, so it decides nothing.
- Zero-copy slices, the lifetime of mapped memory, file locks, `fsync` and the listing of directories: the disk is a map of snapshots, a link and a contiguous log, and a process may stop between any two steps; power loss is left out.
- SHA-256, tidwall/wal, snappy, zlib, the node cache and the worker pool: each is a parameter or a short contract.
- The RocksDB store, the protobuf code, `layout_native.go`, the SDK adapters and the commands: thin, or without a hard property of their own.
- A foreground snapshot rewrite, saving a version without a log entry, and timeouts while waiting for the log: they would add easy steps only.
