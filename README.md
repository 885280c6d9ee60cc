# Document-separation data pipeline: a Dafny model

This project models the data core of a document-separation trainer.

The dataset is a hierarchy. An archive holds *inventories*, an inventory holds *documents*, and a document holds *scans*, which are page images.

- **The index.** `DocumentSeparationDataset` numbers every scan in row-major order (inventory, then document, then scan). This is its flat index.
- **The window.** For a flat index it builds a window of `number_of_images + 2` slots around the scan:
  - the scans before it, by walking backwards;
  - the scan itself, in the middle slot;
  - the scans after it, by walking forwards;
  - a missing slot (None) past the edge of the archive when there is no wrap-around.
- **Perturbations.** Three random perturbations can fire while the window is built:
  - shuffle a document's scans;
  - jump to a random other document;
  - overwrite a non-middle slot with a random scan of another document.
- **Labels.** Each retained slot gets a start / middle / end label by comparing its document with its neighbours' documents.
- **The data module.** `split_training_paths` groups the training files by folder, shuffles the folder groups with a fixed seed, and cuts them 80 / 20 into training and validation files.

## Layout

| file | module | contents |
| --- | --- | --- |
| `wrappers.dfy` | `Wrappers` | `Option`, `Result` |
| `randomness.dfy` | `Randomness` | The global random generator. It is an explicit stream `Rng(uniform, integer)` read at a cursor `t` that every operation threads through and returns. It also holds the coin `prob > rand()`, `choice(n)` and the Fisher–Yates shuffle that numpy and Python's `random` share. |
| `hierarchy.dfy` | `Hierarchy` | The shape of the archive (scan counts per document), coordinates, the row-major flat index and the slot expected at each flat position. |
| `labels.dfy` | `Labels` | The label formulas, the label loop of `__getitem__`, and the hierarchy's true label. |
| `dataset.dfy` | `Dataset` | The class `DocumentSeparationDataset`. Its configuration is `const`; `next_scans` and `prev_scans` are mutable fields. It holds the index build, the navigation functions, the walks, the insertion of a random scan (over an `array`) and `__getitem__`. |
| `datamodule.dfy` | `DataModule` | `split_training_paths` (folder groups, seeded shuffle, truncated split point) and the constructor of `DocumentSeparationModule`. |

## Randomness

Every draw that numpy or `random` would make reads the stream at the cursor and advances it. Each draw happens in the source's order and on the source's branches. A coin is one draw of `uniform`; a choice or a shuffle swap is one draw of `integer`.

- **Exact reproduction.** Given the same stream, the model reproduces the source's window exactly.
- **Deterministic windows.** With all three probabilities at or below 0, a valid stream and no wrap-around, the window is deterministic. In that case the model proves that the window is exactly the row-major neighbourhood of the scan and that every label equals the scan's true label.
- **Claims over all streams.** Everything else is proved for every stream.

## Where the code and its description differ (the model follows the code)

- **The split point.** It is `int(len * ratio)`, which truncates toward zero (`Truncate`). It is not rounded.
- **The three probabilities** are not validated. A value above 1 always fires and a value at or below 0 never fires (`Randomness.Fires`).
- **Randomised inventory choice.** When the document order is randomised across inventories, the new inventory is drawn with `random_choice_except`, so it is never the current inventory. The document inside it is then drawn uniformly.
- **Randomised document, same inventory.** The randomised document of the same inventory is never the current one. An inventory with a single document (or an archive with a single inventory, when the walk is not confined to one inventory) makes the numpy draw raise. The model returns `SampleError.EmptyChoice` in that case.
- **Labels at missing slots.** The label of a missing slot is computed from the `document` variable left over from the last present slot the loop visited, or from the centre's document if there was none (`Labels.StaleDocument`). It is not all-false.
- **Labels compare only documents.** A label compares document indices only, not inventories. Two consecutive slots from different inventories with the same document index therefore do not mark a boundary (`Labels.BoundaryLabel`).
- **Single-scan documents.** A scan that is alone in its document gets both `start` and `end`, so "exactly one of start / middle / end" does not hold there. `BoundaryLabel` promises only that at least one label holds and that `middle` excludes the other two; `TrueLabel` sets both `start` and `end` for a one-scan document.
- **Dead check.** The check `all_scans is None` in `fill_next_prev_scans` can never fire: `get_all_scans_in_document` returns a list. The model has no such branch.

## Model

| member | source | states |
|---|---|---|
| Dataset.BuildIndex | data/dataset.py:46-62 | It fails exactly when some document has no scans, and then names the first such document in row-major order. On success the index maps exactly the numbers below the total scan count, each to the in-bounds scan whose row-major position it is, and `len` is the total scan count. |
| Dataset.DocumentSeparationDataset.constructor | data/dataset.py:38-75 | It keeps the configuration and sets both scan buffers empty. `steps_back = N // 2 + 1` and `steps_forward = N + 1 - steps_back`; both are at least 1 and their sum is `N + 1`. The centre sits at the window's middle position `(N + 2) // 2`. |
| Dataset.DocumentSeparationDataset.Create | data/dataset.py:24-75 | Construction fails exactly when a document is empty or `number_of_images <= 0`; an empty document is the error reported first. On success the object is valid, has the given configuration, and `len` equals the total number of scans. |
| Dataset.RandomChoiceExcept | data/dataset.py:201-208 | The result is below `high` and differs from `excluding`. It is the draw itself or the draw plus one. |
| Dataset.RandomChoiceExceptBijective | data/dataset.py:201-208 | The shift is strictly increasing in the draw, and every value other than `excluding` has a draw that yields it. So a uniform draw gives a uniform result over the allowed values. |
| Dataset.DocumentSeparationDataset.IsOutOfBounds | data/dataset.py:109-117 | True exactly when the triple is not a scan of the hierarchy. |
| Dataset.DocumentSeparationDataset.ScanInDocument | data/dataset.py:119-120 | For an existing document, it is the negation of `IsOutOfBounds`. |
| Dataset.DocumentSeparationDataset.GetFirstDocument | data/dataset.py:122-123 | The result has no previous document, and it is in bounds when the inventory has documents. |
| Dataset.DocumentSeparationDataset.GetLastDocument | data/dataset.py:125-126 | The result has no next document, and it is in bounds when the inventory has documents. |
| Dataset.DocumentSeparationDataset.GetNextDocument | data/dataset.py:128-131 | The result is `document + 1` when that document exists and None otherwise. None comes exactly at the inventory's last document. |
| Dataset.DocumentSeparationDataset.GetPrevDocument | data/dataset.py:133-136 | The result is `document - 1` when that document exists and None otherwise. None comes exactly at document 0. |
| Dataset.DocumentSeparationDataset.GetFirstInventory | data/dataset.py:138-139 | The result has no previous inventory, and it is in bounds when the archive is non-empty. |
| Dataset.DocumentSeparationDataset.GetLastInventory | data/dataset.py:141-142 | The result has no next inventory, and it is in bounds when the archive is non-empty. |
| Dataset.DocumentSeparationDataset.GetNextInventory | data/dataset.py:144-147 | The result is `inventory + 1` when it exists, and None exactly at the last inventory. |
| Dataset.DocumentSeparationDataset.GetPrevInventory | data/dataset.py:149-152 | The result is `inventory - 1` when it exists, and None exactly at inventory 0. |
| Dataset.DocumentSeparationDataset.GetAllScansInDocument | data/dataset.py:154-157 | It contains exactly the scans of the document, in order (slot k holds scan k), one per scan. An absent document gives the empty list. |
| Dataset.DocumentSeparationDataset.FillNextPrevScans | data/dataset.py:159-183 | Both buffers start empty. If the coin fires and the document has more than one scan, then `prev + [scan] + next` is exactly the document's scans shuffled with the stream's draws. Otherwise both buffers stay empty. When the shuffle fired, or when the document has a single scan, the buffers together with the scan hold every scan of the document exactly once. When the coin does not fire on a document of several scans, the buffers stay empty and the walks take the document's scans in natural order. |
| Dataset.DocumentSeparationDataset.SplitAround | data/dataset.py:172-183 | The loop over the shuffled scans puts everything before the centre into `prev_scans` and everything after it into `next_scans`, so that `prev + [centre] + next` is the shuffled list. |
| Dataset.DocumentSeparationDataset.GetNextScansInDocument | data/dataset.py:185-190 | If a buffer is non-empty, the result is `next_scans`. Otherwise it is the scans after `scan` in its document, in order. |
| Dataset.DocumentSeparationDataset.GetPrevScansInDocument | data/dataset.py:192-197 | If a buffer is non-empty, the result is `prev_scans`. Otherwise it is the scans before `scan` in its document, in order. |
| Dataset.DocumentSeparationDataset.RandomDocument | data/dataset.py:211-218 | The randomised branch fails exactly when there is no other document to draw from: a single-document inventory when confined to one inventory, otherwise a single inventory. On success it yields an in-bounds document other than the current one. That document is in the current inventory exactly when the walk is confined to one inventory. |
| Dataset.DocumentSeparationDataset.EnterDocument | data/dataset.py:236-241 | It yields every scan of the entered document exactly once. When the shuffle coin (read at `t`) does not fire, the scans come in their natural order. When it fires, they are the Fisher–Yates shuffle of the natural order with the swap draws that follow the coin. It uses one coin draw, plus `n - 1` swap draws when the coin fires on a document of `n > 1` scans. |
| Dataset.DocumentSeparationDataset.GetScansInNextDocument | data/dataset.py:210-241 | With the order coin off: the next document; otherwise, with wrap-around, the first document of the same inventory (when confined) or of the next inventory, cyclically. None is returned only at the last document, without wrap-around, and the position stays where it was. A step that enters a document with the coin off is exactly `EnterDocument` of that document at the next draw. With the coin on, the step succeeds exactly when `RandomDocument` does, and is then `EnterDocument` of the drawn document at the stream position `RandomDocument` leaves. The entered scans are each present once, stay in the inventory when confined, and come in natural order when shuffling cannot fire. |
| Dataset.DocumentSeparationDataset.GetScansInPrevDocument | data/dataset.py:243-274 | The mirror image: the previous document, or wrap-around to the last document of the same inventory or of the previous inventory, cyclically. None is returned only at document 0 without wrap-around. With the coin off, a step that enters a document is `EnterDocument` of it at the next draw. With the coin on, it succeeds exactly when `RandomDocument` does and is `EnterDocument` of the drawn document. |
| Dataset.DocumentSeparationDataset.GetNextIdcs | data/dataset.py:276-286 | It succeeds exactly when the reference walk `NextWalk` from the scans after c succeeds. Its slots are then the first `steps_forward` slots of that walk, and its stream position is the walk's. `NextIdcsKeeps` states what those slots are. |
| Dataset.DocumentSeparationDataset.GetPreviousIdcs | data/dataset.py:288-299 | It succeeds exactly when the reference walk `PrevWalk` from the scans before c succeeds. Its slots are then the last `steps_back` slots of that walk, and its stream position is the walk's. `PrevIdcsKeeps` states what those slots are. |
| Dataset.DocumentSeparationDataset.NextWalk | data/dataset.py:280-285 | The loop of `get_next_idcs` as a recursive reference. On success it has at least `steps_forward` slots and starts with the slots it was given. With enough slots already, it returns them at once, without a draw. |
| Dataset.DocumentSeparationDataset.PrevWalk | data/dataset.py:292-297 | The loop of `get_previous_idcs` as a recursive reference. On success it has at least `steps_back` slots, never fewer than it was given. With enough slots already, it returns them at once, without a draw. |
| Dataset.DocumentSeparationDataset.NextWalkUnfold | data/dataset.py:280-285 | One turn of the forward loop is one unfolding of `NextWalk`. A failing step fails the walk. A successful step adds at least one slot, and the walk continues from the extended slots at the step's document and stream position. In a sequential walk no step fails. |
| Dataset.DocumentSeparationDataset.PrevWalkUnfold | data/dataset.py:292-297 | The backward mirror of `NextWalkUnfold`: a step's slots go in front, and the walk continues from there. |
| Dataset.DocumentSeparationDataset.PrevWalkKeepsEnd | data/dataset.py:292-297 | The backward walk only puts slots in front: the slots it started from are the end of the slots it yields. |
| Dataset.DocumentSeparationDataset.WalkForward | data/dataset.py:280-286 | The `while` loop of `get_next_idcs` followed by the cut: it fails exactly when `NextWalk` fails, and otherwise yields its first `steps_forward` slots and its stream position. |
| Dataset.DocumentSeparationDataset.WalkBackward | data/dataset.py:292-299 | The `while` loop of `get_previous_idcs` followed by the cut: it fails exactly when `PrevWalk` fails, and otherwise yields its last `steps_back` slots and its stream position. |
| Dataset.DocumentSeparationDataset.ForwardWalkStart | data/dataset.py:276-279 | The forward loop's invariant holds on entry, for the scans after c in its document or in the buffer. |
| Dataset.DocumentSeparationDataset.BackwardWalkStart | data/dataset.py:288-291 | The backward loop's invariant holds on entry. |
| Dataset.DocumentSeparationDataset.ForwardWalkStep | data/dataset.py:280-285 | Each successful forward step keeps the loop invariant: in-bounds and confined slots; for a sequential walk, slots of c's inventory with missing slots only at the end; with no randomness, the flat run after c. |
| Dataset.DocumentSeparationDataset.BackwardWalkStep | data/dataset.py:292-297 | Each successful backward step keeps the backward loop invariant, with missing slots only at the start and the flat run before c. |
| Dataset.DocumentSeparationDataset.NextWalkKeeps | data/dataset.py:280-286 | From any state of the forward loop that satisfies its invariant, a sequential walk cannot fail, and the cut of a successful walk keeps `ForwardCut`: in-bounds and confined slots; for a sequential walk, slots of c's inventory with missing slots only at the end; with no randomness, the scans at the flat positions after c, all missing when c is its inventory's last scan. |
| Dataset.DocumentSeparationDataset.PrevWalkKeeps | data/dataset.py:292-299 | The backward mirror of `NextWalkKeeps` (`BackCut`): missing slots only at the start, and the scans at the flat positions before c, all missing when c is its inventory's first scan. |
| Dataset.DocumentSeparationDataset.NextIdcsKeeps | data/dataset.py:276-286 | What `get_next_idcs` yields, for every stream. Every present slot is an in-bounds scan; with wrap-around no slot is missing; when confined, every slot stays in the centre's inventory. In a sequential walk (no randomised order, no wrap) the walk cannot fail, stays in the centre's inventory, and has missing slots only at the end. With no randomness and empty buffers, the slots are exactly the scans at flat positions `idx + 1, ...` within the inventory, None past its end; the last scan of an inventory gets only missing slots. |
| Dataset.DocumentSeparationDataset.PrevIdcsKeeps | data/dataset.py:288-299 | What `get_previous_idcs` yields: the same guarantees as the forward walk, except that in a sequential walk missing slots come only at the start. With no randomness and empty buffers, the slots are the scans at flat positions `idx - steps_back, ..., idx - 1` within the inventory. The first scan of an inventory gets only missing slots. |
| Dataset.DocumentSeparationDataset.FillCursor | data/dataset.py:159-183 | The stream position that `fill_next_prev_scans` leaves is past the coin. It is exactly one past the coin's position iff the coin does not fire or the document has a single scan. |
| Dataset.DocumentSeparationDataset.WalkWindow | data/dataset.py:337-346 | The window the two walks build around c, as a reference: on success it has `N + 2` slots with c at position `steps_back`, and the stream has not gone back. |
| Dataset.DocumentSeparationDataset.WalkWindowKeeps | data/dataset.py:337-346 | For every stream, the slots of a successful window are in bounds and confined. With no randomised order and no wrap-around, the window cannot fail. With no randomness and empty buffers, it is the run of flat positions around c within its inventory. |
| Dataset.DocumentSeparationDataset.WalkAround | data/dataset.py:340-346 | The two walks with c between them: they fail exactly when `WalkWindow` fails, and otherwise yield its window and stream position. |
| Dataset.DocumentSeparationDataset.NaturalWindow | data/dataset.py:332-346 | With no randomness in the walks, the window that the walks of `__getitem__(idx)` build once the buffers are filled is the run of flat positions `idx - steps_back, ...` within the inventory, missing past its ends. |
| Dataset.DocumentSeparationDataset.RandomScanChoice | data/dataset.py:301-328 | It makes the draws of `insert_random_scan` in their order. Nothing is inserted when the coin does not fire, or when the candidate documents are empty. Otherwise the position is not the middle, and the scan is an in-bounds scan of a document other than the centre's. It stays in the centre's inventory when the walk is confined to one inventory; otherwise its inventory is the inventory drawn from the stream, and only the centre's own document is excluded. |
| Dataset.DocumentSeparationDataset.InsertRandomScan | data/dataset.py:301-330 | The array is the old array with at most the drawn slot overwritten by the drawn scan. The middle slot is unchanged. |
| Dataset.DocumentSeparationDataset.WindowAround | data/dataset.py:332-346 | Afterwards the buffers hold the shuffled halves of the centre's document when its shuffle fired on a document of several scans, and are empty otherwise (`ShuffledHalves`). The window succeeds exactly when the reference `WalkWindow` does, from the stream position `FillCursor` gives, and equals it then, for every stream. It has `N + 2` slots with the centre scan in the middle, and every present slot is in bounds and confined. With no randomness and without wrap-around, it cannot fail and is exactly the centre's row-major neighbourhood within its inventory. |
| Dataset.DocumentSeparationDataset.InsertKeepsWalk | data/dataset.py:301-330 | Overwriting a slot with a scan that the insertion may draw keeps every slot in bounds and within the confinement. |
| Dataset.DocumentSeparationDataset.NaturalTargets | data/dataset.py:360-390 | When a window's slots sit at their row-major positions, the label of every present retained slot is that scan's true label: start iff it is the document's first scan, end iff it is the last. |
| Dataset.DocumentSeparationDataset.LabelWindow | data/dataset.py:348-425 | The window is the walked window with the slot that `RandomScanChoice` draws overwritten by the scan it draws, or unchanged when it draws none; the stream position is the one the choice leaves. That slot is never the centre, and every slot stays in bounds and confined. Targets and `idcs[1:-1]` are present exactly in the train and validation modes, and each target is the label formula over the slot's neighbours with the stale document. With the insertion switched off, a row-major window gets the true labels. The buffers are not touched. |
| Dataset.DocumentSeparationDataset.GetItem | data/dataset.py:332-425 | It succeeds exactly when the reference `WalkWindow` around the scan of flat index `idx` succeeds. The window is then that walked window with the `RandomScanChoice` slot overwritten, for every stream. It has `N + 2` slots, with the scan of flat index `idx` in the middle. Targets and `idcs[1:-1]` are present exactly in the train and validation modes. Each target is the label formula applied to its neighbours, with the stale document at missing slots. With no randomness and without wrap-around, the window is the walked window itself (`NaturalWindow`: the row-major neighbourhood) and every present label is the true label. The buffers are left as `WindowAround` leaves them for the centre scan. |
| Labels.BoundaryLabel | data/dataset.py:379-390 | `middle` holds iff neither `start` nor `end` holds, so every position carries at least one label. |
| Labels.StaleDocument | data/dataset.py:360-376 | After the loop has visited some slots, `document` holds the document of the last slot if that slot is present, and the centre's document if no slot was present. |
| Labels.StaleDocumentIsLastPresent | data/dataset.py:360-376 | When some slot is present, `document` holds the document of the last present slot: every slot after it is missing. |
| Labels.ComputeTargets | data/dataset.py:360-404 | It gives one label per retained position. At a present slot, start holds iff the previous slot is missing or in another document, and end holds iff the next slot is missing or in another document. Every label equals `BoundaryLabel` over the neighbours and the stale document. |
| Labels.TrueLabel | data/dataset.py:379-390 | A scan starts its document iff it is scan 0, ends it iff it is the last scan, and is in the middle otherwise. |
| Labels.FlatNeighboursLabel | data/dataset.py:379-390 | When a scan's window neighbours are its row-major neighbours, the label formula gives exactly its true label. |
| Hierarchy.FlatIndexBounds | data/dataset.py:46-60 | A scan's flat index lies inside its document's block and its inventory's block, and below the total. |
| Hierarchy.FlatIndexOrder | data/dataset.py:46-60 | The index build numbers scans in row-major order: it preserves and reflects lexicographic order, and it is injective. |
| Hierarchy.FlatFromOutside | data/dataset.py:280-299 | Slots whose flat positions all lie outside the inventory are all missing. |
| Randomness.Fires | data/dataset.py:163 | With a valid stream, a probability at or below 0 never fires and one at or above 1 always does. |
| Randomness.Choice | data/dataset.py:206 | A draw from `range(n)` is below `n`. |
| Randomness.Shuffle | data/dataset.py:170 | The shuffle keeps the length and uses `n - 1` draws. |
| Randomness.ShufflePermutes | data/dataset.py:170 | A shuffle is a permutation: the same elements, each as often, and a duplicate-free list stays duplicate-free. |
| DataModule.GroupByParent | data/datamodule.py:32 | It produces consecutive maximal runs of equal parent folder, whose concatenation is the input. There are no more groups than paths, and there is no group exactly when there is no path. |
| DataModule.Concat | data/datamodule.py:40-41 | `itertools.chain.from_iterable` over a list of groups: a single group chains to itself. Its algebra is stated by `ConcatAppend` and `ConcatSplit`. |
| DataModule.ConcatAppend | data/datamodule.py:40-41 | Chaining two lists of groups one after the other gives the chain of the first followed by the chain of the second. |
| DataModule.ConcatSplit | data/datamodule.py:40-41 | The chains of the groups before and after any cut, put together, give the chain of all groups. So the two slices of the split together hold every file once, in order. |
| DataModule.SplitIndex | data/datamodule.py:39-41 | `split_idx = int(len(groups) * split_ratio)`, as the two slices use it. It never exceeds the number of groups, and a ratio of at least 1 sends every group to training. `SplitPoint` gives its value for a ratio in [0, 1]. |
| DataModule.Truncate | data/datamodule.py:39 | Truncation toward zero: the floor for non-negatives and the ceiling for negatives. |
| DataModule.SliceBound | data/datamodule.py:40-41 | A Python slice bound: clamped to the length, with negative bounds counted from the end and clamped to 0. |
| DataModule.SplitTrainingPaths | data/datamodule.py:17-43 | Training and validation files together are exactly the sorted input files, each as often. |
| DataModule.SplitPartitions | data/datamodule.py:17-43 | When sorting permutes its input, the two sets together are exactly the input files. |
| DataModule.SplitKeepsGroups | data/datamodule.py:30-41 | The two sets are the concatenations of the shuffled folder groups before and after the split point, and the shuffle permutes the groups. |
| DataModule.SplitPoint | data/datamodule.py:39 | For a ratio in [0, 1], the split point is the floor of `groups * ratio`. |
| DataModule.SplitPointTenGroups | data/datamodule.py:39 | At the default ratio of 0.8, ten folders give eight training folders. |
| DataModule.ContiguousGroupsDistinct | data/datamodule.py:30-32 | When the sorted paths keep each folder together, the groups have pairwise different folders. |
| DataModule.NoFolderInBothSets | data/datamodule.py:17-43 | When sorting keeps each folder together, no folder has files in both the training and the validation set. |
| DataModule.ConcatUpdate | data/datamodule.py:40-41 | Replacing one group changes the chained files' multiset by exactly that group's change. |
| DataModule.ShuffledConcat | data/datamodule.py:36-41 | Shuffling groups does not change the multiset of chained files. |
| DataModule.DocumentSeparationModule.constructor | data/datamodule.py:47-64 | Without validation paths, the training and validation paths are the 0.8 / seed-101 split of the training paths. Otherwise both lists are kept as given. |

## Left out

- **Image and text loading** (`get_image`, `get_text`, the page-XML parser and its cache), **transforms** and **file checks** (`check_files`): these are I/O on external files. A sample keeps only the coordinates of its window, its targets and `idcs[1:-1]`.
- **Progress bars and `print`:** console output only.
- **Randomness as a generator state:** numpy's and Python's generators are an explicit stream passed in and returned. The distributions of `rand` and `choice` are not modelled. Only their ranges are stated: `uniform` in [0, 1) for a valid stream, and `choice(n)` below `n`.
- **`random.seed` / the seeded shuffle:** `SplitTrainingPaths` takes a function from seed to draw stream. `natsorted` is a parameter, because natural sort order is a string-collation library.
- **`NoFolderInBothSets`** is weaker than "folders are never split". It assumes that the sorted paths keep each folder's files next to each other (`FoldersContiguous`), and natural sort does not guarantee this. A folder that holds both files and a sub-folder sorts as `x1/a.jpg < x1/y/b.jpg < x1/z.jpg`. `itertools.groupby` then splits `x1` into two runs, and those runs can land on both sides of the cut.
- **Float semantics:** probabilities and the split ratio are exact reals, without IEEE rounding.
- **`setup`, `prepare_data` and the data loaders** of `DocumentSeparationModule`: they read an Excel file and build framework loaders.
- **`GetNextIdcs`, `GetPreviousIdcs`, `WindowAround` and `GetItem`** require every inventory to hold a document and every document a scan. On an archive with an empty inventory the source's wrap-around across inventories can loop forever (for example, when the first two of three inventories are empty, a walk keeps returning to `(0, 0)`), and a randomised step that draws an empty inventory raises `ValueError` from `np.random.choice(0)`; the model does not describe that behaviour.
- **`DocumentSeparationDataset.constructor`:** the `assert mode in ["train", "val", "test"]` check (data/dataset.py:39) has no counterpart, because the `Mode` datatype has exactly those three values and an unknown mode cannot be represented. The keyword defaults (`mode="train"`, `number_of_images=3`, no wrap-around, confinement to one inventory, probabilities 0) are not modelled: every argument is passed explicitly.
- **`GetItem`:** the batch-collation format (a dictionary of lists of targets) is reduced to a sequence of labels.
