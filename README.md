# Isolation-forest intrusion detector: a Dafny model

This project models the anomaly-detection engine of a host-based intrusion
detection system written in C. It uses an isolation forest over per-process
system-call frequency profiles. Three programs share the engine:

- `main.c` is the full engine. `build_isolation_tree` grows a random tree over
  a subsample of training profiles. `path_length` walks a query profile down
  a tree. `train_isolation_forest` draws subsamples and grows the forest.
  `anomaly_score` averages the path lengths and normalises them by `c_factor`.
- `new.c` is a compact re-implementation. Its builder matches `main.c`'s. Its
  `get_path` walk never detours. Its training loop does not clamp the
  subsample size. It also has a synthetic profile generator, `gen_data`.
- `new_short.c` is a toy. Its `build_tree` ignores the data and halves the
  sample count at every level. Its `get_path_length` scores a query by the
  depth at which it is isolated.

Every random choice reads `rand()`. The model replaces `rand()` with a stream
`rand: nat -> nat` read at a cursor `pos`, and each builder returns the
cursor after its last draw. A built tree is therefore a deterministic function
of the data and the stream. The contracts hold for every stream, so they hold
whatever `rand()` returns.

Modules:

- `Base` (`base.dfy`): the `Option` child pointer, the `Stream` of `rand()`
  results, and `Stop`, the place where a walk ends.
- `Samples` (`samples.dfy`): the profile type and the two loops both
  builders run over a node's samples. The first is the min/max scan of one
  attribute. The second is the partition of the index list around the split.
  Both loops are proved against recursive reference functions.
- `MainForest` (`main_forest.dfy`): `main.c`.
- `NewForest` (`new_forest.dfy`): `new.c`.
- `ShortForest` (`short_forest.dfy`): `new_short.c`.

The builders, the training loops, the score loop and the generator are
methods with loops, arrays and invariants, as in the C. Each builder is
proved to produce a tree that satisfies a `WellBuilt` (or `Sound`) predicate,
which describes every tree the builder can return. The properties of built
trees are then lemmas about that predicate. The walks are pure recursive
functions, as in the C.

## Model

| member | source | states |
|---|---|---|
| MainForest.RandomInt | main.c:75-77 | for `min <= max` and any non-negative `rand()` result, `random_int` lies in `[min, max]` |
| MainForest.RandomIntCovers | main.c:75-77 | every value of `[min, max]` is produced by some `rand()` result |
| MainForest.CFactorSmall | main.c:63-72 | `c_factor(n)` is 0 for `n <= 1`; it is -1 for `n == 2` whatever the logarithm, because `harmonic_number(1)` is 0 |
| Samples.MinOf | main.c:155-162 | the folded minimum is an element of the values and no larger than any of them |
| Samples.MaxOf | main.c:155-162 | the folded maximum is an element of the values and no smaller than any of them |
| Samples.AttributeRange | main.c:155-162 | the min/max loop returns the true minimum and maximum of the attribute over the node's samples (also new.c:38-42) |
| Samples.Values | main.c:159 | the attribute value read for the k-th index is `data[idx[k]][attr]`, one per index |
| Samples.Below | main.c:178-185 | every index on the left side points into the data and has a value strictly below the split |
| Samples.AtOrAbove | main.c:178-185 | every index on the right side points into the data and has a value at or above the split |
| Samples.Partition | main.c:173-185 | the buffers filled with running counters hold exactly the indices below the split and those at or above it, each in the original order (also new.c:48-50) |
| Samples.PartitionConserves | main.c:178-185 | every index lands on exactly one side: the two sides together equal the index list as a multiset, and `left_count + right_count == n` |
| Samples.BelowEmptyIff | main.c:188-191 | the left side is empty exactly when no sample lies below the split |
| Samples.AtOrAboveEmptyIff | main.c:192-195 | the right side is empty exactly when every sample lies below the split |
| Samples.SplitSides | main.c:170-195 | for a split in `[min, max]` the right side is never empty, because the sample at the maximum goes right; the left side is empty exactly when the split equals the minimum |
| Samples.ScanStep | main.c:178-185 | scanning one more index appends it to exactly one side, chosen by its value against the split |
| Samples.RangeStep | main.c:158-162 | one more element folds into the running minimum and maximum |
| MainForest.Build | main.c:140-201 | for every `rand()` stream the tree is `WellBuilt`: each node records `size == n`; a node is a leaf iff the depth cap is reached, `n <= 1`, or the drawn attribute is constant; otherwise the attribute lies in `[0, MAX_SYSCALLS)`, the split in `[min, max]`, the right child exists, the left child is absent iff the split is the minimum, and the children are built over the two sides |
| MainForest.WellBuilt | main.c:140-201 | a well-built tree only splits on attributes inside the profile |
| MainForest.InternalFacts | main.c:146-195 | an internal node of a well-built tree lies above the depth cap, has `n >= 2`, an in-range attribute and a right child, and its left child exists iff the left side is non-empty |
| MainForest.LeafSizesSumToRoot | main.c:143-195 | the leaf sizes of a built tree add up to the root's `n`: every subsample index reaches exactly one leaf |
| MainForest.HeightBounded | main.c:146-149 | no node of a built tree lies below the depth cap |
| MainForest.RoutableHeight | main.c:146-149 | a routable tree ends by the depth cap |
| MainForest.Routable | main.c:209-222 | a routable tree only splits on attributes inside the profile |
| MainForest.WellBuiltIsRoutable | main.c:140-201 | a built tree over at least one sample has, at every node, between one sample and its parent's count, childless leaves, and internal nodes above the cap with a right child |
| MainForest.DetourRight | main.c:216-219 | a query below the split at a node without a left child goes right instead of stopping |
| MainForest.WalkEndsAtLeaf | main.c:209-222 | on a routable tree every walk ends at a leaf, never at the bare-depth return, within the depth cap, at a leaf holding between one sample and the root's count |
| MainForest.PathLengthAtLeaf | main.c:204-223 | on a built tree `path_length` is the depth of the leaf the query reaches, which is at most `max_depth`, plus `c_factor` of that leaf's size, which lies in `[1, n]`; the return at main.c:222 is unreachable |
| MainForest.SubsampleSize | main.c:239 | the subsample size is `min(SUBSAMPLE_SIZE, n)` |
| MainForest.DrawSubsample | main.c:245-248 | the subsample holds `subsample_size` indices, the i-th drawn by `random_int(0, n - 1)`, so each lies in `[0, n - 1]` |
| MainForest.GrowTree | main.c:244-256 | one pass of the training loop returns a tree with depth cap `MAX_TREE_DEPTH`, well built from depth 0 over `ss` indices drawn from `[0, n - 1]` |
| MainForest.Train | main.c:236-262 | training yields exactly `NUM_TREES` trees with depth cap `MAX_TREE_DEPTH` and `subsample_size == min(SUBSAMPLE_SIZE, n)`, each tree well built over a subsample of that size drawn from `[0, n - 1]` |
| MainForest.AnomalyScore | main.c:265-282 | the accumulation loop computes `Score`: the mean path length over the trees, normalised by `c_factor(subsample_size)`, or 0.5 when that is 0 |
| MainForest.ScoreFallback | main.c:275-276 | whenever `subsample_size <= 1` the score is 0.5 for every query |
| MainForest.ScoreOfTwo | main.c:275-279 | with a subsample size of 2, `c_factor` is -1 and the score is `pow(2, avg)` of the mean path length `avg`, not `pow(2, -avg / c)` with a positive `c` |
| MainForest.TrainedForestOk | main.c:236-282 | a trained forest meets everything `anomaly_score` needs: at least one tree, and split attributes inside the profile |
| MainForest.IdenticalDataGivesLeaf | main.c:164-168 | when all training profiles are equal, every attribute is constant, so a built tree is a single leaf holding all its samples |
| MainForest.TreeOfIdenticalData | main.c:253-254 | a tree trained on identical profiles is a root leaf over its whole subsample |
| MainForest.IdenticalDataGivesLeaves | main.c:243-258 | a forest trained on identical profiles consists of root leaves, each of size `subsample_size` |
| MainForest.SumPathsIgnoreQuery | main.c:269-271 | over root-leaf trees the summed path length does not depend on the query |
| MainForest.LeafForestScoresAlike | main.c:265-282 | a forest of root leaves gives every query the same score |
| MainForest.IdenticalDataScoresAlike | main.c:265-282 | a forest trained on identical profiles gives every query the same score |
| NewForest.CFactorAgainstMain | new.c:25-28 | `new.c`'s `c_factor` equals `main.c`'s except at `n == 2`, where `main.c` gives -1 and `new.c` gives `2 (log 1 + γ) - 1` |
| NewForest.WellBuilt | new.c:32-56 | a well-built tree only splits on attributes inside the profile |
| NewForest.Build | new.c:32-56 | for every `rand()` stream the tree is `WellBuilt`: `size == n` at each node; a leaf is the zeroed `calloc` record and appears only at the depth cap, for `n <= 1`, or when an attribute is constant; an internal node has `n >= 2`, `split_attr` in `[0, 20)`, `split_val` in `[min, max]` with `min < max`, a right child, and no left child iff the split is the minimum |
| NewForest.ConstantAttr | new.c:37-44 | an attribute whose minimum equals its maximum over the samples makes the leaf condition `ConstantFrom` hold |
| NewForest.ConstantFromWitness | new.c:37-44 | conversely, the leaf condition `ConstantFrom` names an attribute in `[0, MAX_SYSCALLS)` whose minimum equals its maximum over the samples |
| NewForest.InternalFacts | new.c:44-53 | an internal node lies above the cap, has `n >= 2`, an in-range attribute and a right child, and its left child exists iff `lc > 0` |
| NewForest.Routable | new.c:59-63 | a routable tree only splits on attributes inside the profile |
| NewForest.WellBuiltIsRoutable | new.c:32-56 | a built tree over at least one sample has, at every node, between one sample and its parent's count, childless leaves, and internal nodes above the cap with a right child |
| NewForest.NoDetour | new.c:59-63 | unlike `main.c`, a query below the split at a node without a left child ends on the missing child with result `depth + 1` |
| NewForest.ReachOnRoutable | new.c:59-63 | on a routable tree the walk stops within the cap, at a leaf holding between one sample and the root's count, or, on a missing child, strictly below where it started |
| NewForest.GetPathOnBuiltTree | new.c:59-63 | on a built tree `get_path` is the stopping depth, which is at most `MAX_DEPTH`, plus `c_factor(size)` at a leaf of size in `[1, n]`, or plus `c_factor(0) == 0` on a missing child |
| NewForest.DrawIndices | new.c:80-81 | the loop fills `SUBSAMPLE_SIZE` indices, the i-th being `rand() % n_train` of the i-th draw, so each lies in `[0, n_train)` |
| NewForest.TrainForest | new.c:79-83 | the loop builds `NUM_TREES` trees, each well built from depth 0 over `SUBSAMPLE_SIZE` indices in `[0, n_train)`, with no clamping |
| NewForest.GenValue | new.c:69 | a frequency is non-negative: anomalous in `[0, 50)` for `i > 10` and `[0, 5)` otherwise; normal in `[40, 60)` for `i < 5` and `[0, 5)` otherwise |
| NewForest.GenData | new.c:66-70 | each of the 20 frequencies is the value of its own `rand()` call, in order, so all lie in their bands |
| ShortForest.BuildTree | new_short.c:29-43 | the cursor after the last draw never lies before the starting one; the shape of the tree is stated by `BuildTreeSound` |
| ShortForest.BuildTreeSound | new_short.c:29-43 | for every `rand()` stream the tree is a leaf iff `depth >= MAX_DEPTH` or `n <= 1`; every internal node has both children, `split_attr` in `[0, 5)`, `split_val` in `[0, 100)`, and children over `n / 2` and `n - n / 2` |
| ShortForest.HalvesNonEmpty | new_short.c:40-41 | for `n >= 2` the halves `n / 2` and `n - n / 2` sum to `n` and are both at least 1 and below `n` |
| ShortForest.SoundIsWalkable | new_short.c:19-26 | on a built tree `get_path_length` never dereferences NULL and reads only inside the profile |
| ShortForest.StopsAtLeaf | new_short.c:19-43 | on a built tree the walk always stops at a leaf; the depth cap in `get_path_length` never cuts it short |
| ShortForest.FloorLogIsLog | new_short.c:40 | halving `n` with rounding down reaches 1 in `floor(log2 n)` steps |
| ShortForest.CeilLogIsLog | new_short.c:41 | halving `n` with rounding up reaches 1 in `ceil(log2 n)` steps |
| ShortForest.FloorLogMonotone | new_short.c:40-41 | more samples never need fewer halvings rounding down |
| ShortForest.CeilLogMonotone | new_short.c:40-41 | more samples never need fewer halvings rounding up |
| ShortForest.HalvingLogs | new_short.c:40-41 | one halving takes one step off each logarithm, and the smaller half needs no more steps than the larger |
| ShortForest.WalkWithin | new_short.c:19-26 | every query stops between the shallowest and the deepest depth at which `get_path_length` can stop on the tree |
| ShortForest.ShallowestOfSound | new_short.c:29-43 | on a tree of `build_tree`'s shape over `n` samples no walk can stop before `min(depth + floor(log2 n), MAX_DEPTH)` |
| ShortForest.DeepestOfSound | new_short.c:29-43 | on a tree of `build_tree`'s shape over `n` samples no walk can stop after `min(depth + ceil(log2 n), MAX_DEPTH)` |
| ShortForest.PathLengthAtLeast | new_short.c:19-43 | on a built tree over `n` samples every query reaches at least depth `min(depth + floor(log2 n), MAX_DEPTH)` |
| ShortForest.PathLengthAtMost | new_short.c:19-43 | on a built tree over `n` samples no query goes past `min(depth + ceil(log2 n), MAX_DEPTH)` |
| ShortForest.PathLengthBounds | new_short.c:19-43 | the two bounds together; in particular the result is at most `MAX_DEPTH` |
| ShortForest.LogsOfTen | new_short.c:54 | ten samples halve to one in 3 steps rounding down and 4 rounding up |
| ShortForest.TenSamplesPathLength | new_short.c:54-61 | on the tree built over the ten training processes, every query, normal or attack, gets path length 3 or 4 |

## Left out

- Floating point: `log` (in `harmonic_number` and `c_factor`) and `pow` (in the score) are function parameters `ln` and `pow2`, and doubles are exact reals. No property of the real logarithm is assumed, so the model does not bound the score to `[0, 1]`. The ratios of `main.c`'s evaluation report are not modelled.
- `rand()`, `srand(time(NULL))`: replaced by the stream parameter. The model proves only that a builder's cursor never moves back, not how many values it draws.
- `malloc`, `calloc`, `free`, `create_node`, `free_tree`, `free_forest`: memory management. Trees are datatype values; the initial fields set by `calloc` and `create_node` are reproduced in the leaf records.
- All `printf` reporting, `detect_intrusions`, the `main` drivers and `main.c`'s data generators (`generate_normal_behavior`, `generate_anomalous_behavior`): reporting and test scaffolding. `new.c`'s score loop (new.c:86-92) is not modelled: it sums `get_path` instead of `path_length`, uses `new.c`'s `c_factor` and has no `c == 0` fallback.
- C `int` overflow: integers are unbounded, so the wrap-around of `max - min + 1` in `random_int` for values near the `int` limits is not modelled.
- `process_name`, `total_calls` and `is_anomaly` of a profile are not modelled; the engine never reads them.
- An empty training set: the code has no error path for it. `train_isolation_forest` then draws a subsample of size 0 and each tree is a root leaf of size 0. The model follows the code and gives `MainForest.Train` no precondition.
- NewForest.Build: the depth cap is a parameter `maxDepth` rather than the constant `MAX_DEPTH`; `TrainForest` passes `MAX_DEPTH`, as `new.c` does.
- ShortForest.BuildTree: takes the sample count only, not the sample array. `build_tree` passes the array down and never reads it, so the tree depends only on `n`, the depth and `rand()`.
- A NULL root in `path_length` returns the current depth, as in the code; only walks from a non-NULL root are proved to end at a leaf, and a trained forest never has a NULL root.
