# A verified model of CellRank's velocity kernel control logic and estimator utilities

This project models, in Dafny, the logic of three parts of CellRank:

- **The velocity kernel.** This is `VelocityKernel` in `cellrank/tl/kernels/_velocity_kernel.py`. The model covers:
  - what `_read_from_adata` stores, including the gene subset, the fallback expression layer and the NaN-gene filter;
  - how `compute_transition_matrix` settles the mode, builds the `params` cache key, returns early on a cache hit, picks the parallel backend and stores its result;
  - how `_dispatch_computation`, `_run` and `_run_in_parallel` route a computation;
  - the output layout of `_run_deterministic`, where each dispatched cell fills its own contiguous segment.
- **The estimator utilities.** These are in `cellrank/estimators/mixins/_utils.py`: `StatesHolder.set`, the `logger` and `shadow` decorators, and the `SafeGetter` context manager, which rolls back an object's attributes.
- **The test helper `bias_knn`.** It is in `tests/_helpers.py`. It biases a KNN graph towards increasing pseudotime: each row keeps its `k_thresh` heaviest edges, and of the rest it loses those pointing to cells with a smaller pseudotime.

The parts that change state in place are imperative:

- `SafeGetter` is a class over an object whose attribute map it restores.
- `VelocityKernel` is a class whose `ComputeTransitionMatrix` updates `_params` and the stored result. It stores the two together once the run succeeds, and a backward kernel in "negate" mode negates a copy of each velocity row. These correct the stale cache and the negated velocities described under Findings, which the function `VelocityKernels.Compute` models as written.
- `bias_knn` zeroes entries of a copied `data` array row by row.
- `_run_deterministic` fills a freshly allocated `2 x starts[-1]` array.

Each method is proved against a specification function, and the properties of that function are proved as lemmas. The parts that only compute are functions: mode parsing, backend choice, dispatch, the row order, the cache key, the reading of the dataset, the decorators and `StatesHolder.set`.

Modules:

- `Wrappers` holds `Option` and `Result`.
- `Exceptions` holds the part of Python's exception hierarchy that is used.
- `Argsort` holds the contract of `np.argsort` and `np.flip`.
- `Csr` holds SciPy's CSR layout, with `eliminate_zeros`.
- `KnnBias`, `EstimatorUtils`, `VelocityModes`, `VelocityRun`, `VelocityRead` and `VelocityKernels` model the rest.

## Model

| member | source | states |
|---|---|---|
| Exceptions.SubclassDepth | cellrank/estimators/mixins/_utils.py:131 | every class the model raises derives from `BaseException`; `issubclass` never goes to a deeper class and is strict between distinct classes of equal depth |
| Argsort.Range | cellrank/tl/kernels/_velocity_kernel.py:371 | `np.arange(n)` has length `n` and holds `a` at position `a` |
| Argsort.RangeIsPermutation | cellrank/tl/kernels/_velocity_kernel.py:371 | `np.arange(n)` lists every row index exactly once |
| Argsort.ArgsortAscending | cellrank/tl/kernels/_velocity_kernel.py:369 | `np.argsort(keys)` is a permutation of the positions of `keys`, listing them by non-decreasing key |
| Argsort.Reversed | tests/_helpers.py:81 | `np.flip(p)` has the length of `p` and holds `p[len-1-a]` at `a` |
| Argsort.ReversedPermutation | tests/_helpers.py:81 | flipping a permutation gives a permutation |
| Argsort.ReversedDescending | tests/_helpers.py:81 | flipping an ascending order gives a descending one |
| Argsort.ArgsortDescending | tests/_helpers.py:81 | `np.flip(np.argsort(keys))` is a permutation of the positions, by non-increasing key |
| Argsort.RankAtMostAtLeastAsHeavy | tests/_helpers.py:81-83 | in any descending order, the entry at rank `a` has at least `a` other entries at least as heavy |
| Argsort.HeavierAtMostRank | tests/_helpers.py:81-83 | in any descending order, the entry at rank `a` has at most `a` strictly heavier entries |
| Csr.RowEntries | tests/_helpers.py:73-74 | row `i` of a CSR matrix (`conn[i, :]`) has `indptr[i+1]-indptr[i]` entries, read from `indices` and `data` at `indptr[i] + t` |
| Csr.FromRowsRoundTrip | tests/_helpers.py:90 | a CSR matrix laid out from rows is valid, and reading back its row `i` gives the `i`-th row it was built from |
| Csr.WithRowsEntries | tests/_helpers.py:88 | replacing the stored weights row by row keeps every column and puts the new weights in their places |
| Csr.NonZero | tests/_helpers.py:90 | an entry is kept exactly when it is in the row and its weight is not zero, and nothing is added; the row keeps its length exactly when none of its weights is zero |
| Csr.EliminateZeros | tests/_helpers.py:90 | after `eliminate_zeros()` the matrix is valid, has the same shape, and each row holds exactly its non-zero entries, in their order |
| KnnBias.FloorDivIsFloor | tests/_helpers.py:65 | `int(np.floor(n / k))` is the floor of the true quotient, for either sign of `k` |
| KnnBias.FixedKThresh | tests/_helpers.py:65 | the default threshold fails with `ZeroDivisionError` exactly when `k == 0`; it always lies in `[0, 30]`, and it equals `floor(n_neighbors / k) - 1` when that does |
| KnnBias.FracKThresh | tests/_helpers.py:77-78 | the `frac_to_keep` threshold lies in `[0, 30]`; it equals `floor(len(row) * frac)` when that does, and it is 0 for a non-positive fraction |
| KnnBias.RemovedCols | tests/_helpers.py:80-87 | every removed column is a column of the row whose target has a pseudotime below the row cell's; nothing is removed when `k_thresh` reaches the row's length |
| KnnBias.HeavyEntryNotRemoved | tests/_helpers.py:80-87 | with distinct columns, an entry with fewer than `k_thresh` other entries at least as heavy is never removed, whichever order `argsort` gives to ties |
| KnnBias.LightEntryRemovedIff | tests/_helpers.py:80-87 | with distinct columns, an entry with at least `k_thresh` strictly heavier entries is removed exactly when its target's pseudotime is below the row cell's, whichever order `argsort` gives to ties |
| KnnBias.Biased | tests/_helpers.py:66-90 | the biased graph is a valid CSR matrix of the same shape |
| KnnBias.BiasKnn | tests/_helpers.py:57-95 | `bias_knn` raises `ZeroDivisionError` exactly when `k == 0`; otherwise it returns `Biased`: every row processed with its threshold, then the zeros dropped |
| KnnBias.NextRow | tests/_helpers.py:71-88 | one pass of the row loop extends the processed prefix of the copied data by row `i` and leaves later rows untouched |
| KnnBias.BiasRow | tests/_helpers.py:73-88 | processing row `i` replaces its stored weights by the row with its removed candidates zeroed and changes nothing before it |
| KnnBias.ZeroColumns | tests/_helpers.py:88 | `conn_biased[i, rem_ixs] = 0` zeroes the entries of the row whose column is removed, and no other position of `data` |
| KnnBias.ZeroedRowMembership | tests/_helpers.py:88-90 | after zeroing the removed columns of a row and `eliminate_zeros()`, an entry is in the row exactly when it was in the input row with a non-zero weight and a column not removed |
| KnnBias.BiasedRowMembership | tests/_helpers.py:71-90 | an edge is in row `i` of the output exactly when it is an input edge of that row, its weight is not zero and its column is not removed; no edge is added or reweighted |
| KnnBias.TopRanksNotRemoved | tests/_helpers.py:81-87 | with distinct columns, an entry ranked among the first `k_thresh` is never a removed candidate |
| KnnBias.LaterRankRemoved | tests/_helpers.py:83-87 | with distinct columns, an entry ranked `k_thresh` or later is removed exactly when its pseudotime is below the row cell's |
| KnnBias.BiasedKeepsHeaviest | tests/_helpers.py:80-90 | a non-zero edge with fewer than `k_thresh` other edges of its row at least as heavy survives biasing; this holds for every tie-break |
| KnnBias.BiasedKeepsLaterIff | tests/_helpers.py:83-90 | an edge with at least `k_thresh` strictly heavier edges in its row survives exactly when its weight is not zero and its target's pseudotime is at least the row cell's; this holds for every tie-break |
| EstimatorUtils.EmptyHolderFields | cellrank/estimators/mixins/_utils.py:38-42 | every field of a default `StatesHolder` is `None` |
| EstimatorUtils.Set | cellrank/estimators/mixins/_utils.py:44-45 | `set(**kw)` (`_replace`) raises `ValueError` exactly when a keyword is not a field; otherwise each named field takes its keyword's value and every other field keeps its value |
| EstimatorUtils.FieldsDetermineHolder | cellrank/estimators/mixins/_utils.py:38-42 | two holders with equal fields are equal |
| EstimatorUtils.SetNothing | cellrank/estimators/mixins/_utils.py:44-45 | `set()` with no keywords returns the holder unchanged |
| EstimatorUtils.SetTwice | cellrank/estimators/mixins/_utils.py:44-45 | two successive `set` calls equal one call with the merged keywords, the later winning |
| EstimatorUtils.Logger | cellrank/estimators/mixins/_utils.py:103-114 | the wrapped method sees the keywords without `log` and `time`; its result or exception is the decorator's; one info record is logged, with the message and `time`, exactly when it returned and `log` is absent or truthy in Python's sense (`None`, `False`, `0`, `0.0`, `""` and empty containers are not) |
| EstimatorUtils.Shadow | cellrank/estimators/mixins/_utils.py:117-136 | the method runs on the main data, then (unless that raised) on the shadow; an exception of the first call is the outcome, with nothing logged; otherwise the first result is returned; an `Exception` of the shadow call is logged and swallowed; any other exception (`KeyboardInterrupt`, `SystemExit`, `GeneratorExit`) escapes as the call's outcome |
| EstimatorUtils.ShadowFirstRaisePropagates | cellrank/estimators/mixins/_utils.py:126 | when the first call raises, that exception propagates, the shadow call never runs, nothing is logged, and the outcome does not depend on what the shadow call would do |
| EstimatorUtils.ShadowTransparent | cellrank/estimators/mixins/_utils.py:126-136 | when the shadow call returns or raises an `Exception`, the decorated call behaves as the first call |
| EstimatorUtils.ShadowPropagatesInterrupts | cellrank/estimators/mixins/_utils.py:127-134 | a `KeyboardInterrupt`, `SystemExit` or `GeneratorExit` in the shadow call propagates |
| EstimatorUtils.NormalizeAllowed | cellrank/estimators/mixins/_utils.py:162-164 | a single class is wrapped into a one-element tuple; an iterable is kept with the same members |
| EstimatorUtils.SafeGetter.constructor | cellrank/estimators/mixins/_utils.py:159-171 | `ok` holds; the snapshot has the object's attribute names and shares every value except `_shadow_adata`, which is a fresh copy with equal contents |
| EstimatorUtils.SafeGetter.Enter | cellrank/estimators/mixins/_utils.py:173-174 | `__enter__` returns the manager itself |
| EstimatorUtils.SafeGetter.Exit | cellrank/estimators/mixins/_utils.py:176-191 | records the exception class; `ok` holds exactly when there was none; without one the attributes are untouched and the exit suppresses; with one the attributes become the snapshot and the exception is suppressed exactly when its class is listed in `allowed` |
| EstimatorUtils.RollbackExample | cellrank/estimators/mixins/_utils.py:166-186 | after a `KeyError` inside a manager allowing `LookupError`, a new attribute is gone, the deep-copied `_shadow_adata` is restored, an in-place change to a shallowly copied attribute survives, `ok` is false and the error is not suppressed |
| EstimatorUtils.SuccessExample | cellrank/estimators/mixins/_utils.py:176-191 | a block that completes keeps its changes, `ok` holds and `__exit__` returns `True` |
| VelocityModes.ParseMode | cellrank/tl/kernels/_velocity_kernel.py:41-46 | `VelocityMode(s)` yields the mode named `s`, or `ValueError` exactly when no mode has that name |
| VelocityModes.ParseModeName | cellrank/tl/kernels/_velocity_kernel.py:41-46 | every mode parses back from its own value |
| VelocityModes.ParseBackwardMode | cellrank/tl/kernels/_velocity_kernel.py:49-51 | `BackwardMode(s)` yields the backward mode named `s`, or `ValueError` exactly when none has that name |
| VelocityModes.ParseBackwardModeName | cellrank/tl/kernels/_velocity_kernel.py:49-51 | every backward mode parses back from its own value |
| VelocityModes.EffectiveMode | cellrank/tl/kernels/_velocity_kernel.py:215-226 | a backward kernel always uses the deterministic mode, and the stochastic mode is only kept with JAX installed |
| VelocityModes.ExecutedMode | cellrank/tl/kernels/_velocity_kernel.py:256-258 | only sampling or Monte Carlo requests run as sampling |
| VelocityModes.ExecutedModeOfRequest | cellrank/tl/kernels/_velocity_kernel.py:215-258 | the mode run is deterministic for a backward kernel; it is stochastic exactly for a forward stochastic request with JAX; it is sampling exactly for a forward sampling request or a one-sample Monte Carlo request (a JAX-less stochastic one included); any other forward request runs as asked |
| VelocityModes.ResolveBackend | cellrank/tl/kernels/_velocity_kernel.py:260-270 | Python 3.6 and older always use `threading`; otherwise a `multiprocessing` request is honoured only in the stochastic mode (the default backend instead), and any other backend is kept |
| VelocityModes.MultiprocessingOnlyStochastic | cellrank/tl/kernels/_velocity_kernel.py:260-270 | `multiprocessing` is chosen only when explicitly requested, in the stochastic mode, on Python newer than 3.6 |
| VelocityRun.RunCall | cellrank/tl/kernels/_velocity_kernel.py:392-414 | `_run` raises `RuntimeError` exactly for the stochastic worker without JAX; it runs in parallel exactly when `use_numba` is not `True`, dropping the compiled loop exactly when `use_numba` is `False` and the worker has `py_func` |
| VelocityRun.Dispatch | cellrank/tl/kernels/_velocity_kernel.py:620-641 | each mode reaches its registered worker; sampling forces one sample, propagation turns averaging off, the stochastic mode goes straight to `_run_in_parallel`, and the others go through `_run` |
| VelocityRun.NonZeroCount | cellrank/tl/kernels/_velocity_kernel.py:369 | `(conn != 0).sum(1)` for a row is at most its stored entries, and equals them exactly when none of its stored weights is zero |
| VelocityRun.DispatchOrder | cellrank/tl/kernels/_velocity_kernel.py:368-373 | the rows handed to the workers are a permutation of all rows: by ascending non-zero count for `_run_stochastic`, else the shuffled order |
| VelocityRun.ProgressUnit | cellrank/tl/kernels/_velocity_kernel.py:375-377 | the unit is `"sample"` exactly for `_run_mc` with more than one sample, else `"cell"` |
| VelocityRun.SampleUnitModes | cellrank/tl/kernels/_velocity_kernel.py:375-377 | through the dispatch, when the call runs in parallel (the only path with a progress bar), progress counts samples exactly for Monte Carlo and propagation with more than one sample |
| VelocityRun.RowOrder | cellrank/tl/kernels/_velocity_kernel.py:403-414 | whichever way a call is executed, every row is computed exactly once |
| VelocityRun.DeterministicPredictor | cellrank/tl/kernels/_velocity_kernel.py:443-465 | a backward kernel in transpose mode uses the neighbours' velocities; otherwise the cell's own velocity is used, negated exactly for a backward kernel, unless it is all zeros |
| VelocityRun.Degrees | cellrank/tl/kernels/_velocity_kernel.py:435-438 | the `i`-th dispatched cell has `indptr[ix+1] - indptr[ix]` neighbours |
| VelocityRun.Offsets | cellrank/tl/kernels/_velocity_kernel.py:430 | there is one start per dispatched cell plus the total, the first start is 0, and every cell's segment ends within the total |
| VelocityRun.Starts | cellrank/tl/kernels/_velocity_kernel.py:430-431 | every cell's segment `starts[i] .. starts[i] + degree` fits within `starts[-1]` columns |
| VelocityRun.SegmentBefore | cellrank/tl/kernels/_velocity_kernel.py:467-468 | an earlier cell's segment ends before a later cell's starts |
| VelocityRun.SegmentOf | cellrank/tl/kernels/_velocity_kernel.py:467-468 | every output column lies in the segment of exactly one dispatched cell |
| VelocityRun.SegmentsDisjoint | cellrank/tl/kernels/_velocity_kernel.py:467-468 | no output column is written for two cells |
| VelocityRun.OffsetsSum | cellrank/tl/kernels/_velocity_kernel.py:430 | the last start is the sum of the degrees |
| VelocityRun.DegreesSum | cellrank/tl/kernels/_velocity_kernel.py:435-438 | the degrees in dispatch order sum to the total degree of the dispatched rows |
| VelocityRun.StartsSum | cellrank/tl/kernels/_velocity_kernel.py:430 | `starts[-1]` is the total degree of the dispatched rows |
| VelocityRun.TotalPermutation | cellrank/tl/kernels/_velocity_kernel.py:372 | the total degree does not depend on the order in which the rows are dispatched |
| VelocityRun.DegreeSumAllRows | cellrank/tl/kernels/_velocity_kernel.py:371 | the degrees of rows `0 .. n-1` sum to `indptr[n]` |
| VelocityRun.OutputWidth | cellrank/tl/kernels/_velocity_kernel.py:430-431 | when every row is dispatched once, `starts[-1]` equals the number of stored entries of the graph, in whatever order the rows come |
| VelocityRun.WriteSegment | cellrank/tl/kernels/_velocity_kernel.py:467-468 | rows 0 and 1 of the output hold `p` and `c` at columns `s .. s + len(p)`, and no column outside that segment changes |
| VelocityRun.FillSegments | cellrank/tl/kernels/_velocity_kernel.py:430-468 | a fresh `2 x total` array; `AssertionError` exactly when some cell has no neighbours; otherwise each cell's probabilities and correlations sit in its own segment |
| VelocityRun.RunDeterministic | cellrank/tl/kernels/_velocity_kernel.py:417-476 | `_run_deterministic` over the dispatched rows: a fresh `2 x starts[-1]` array; `AssertionError` exactly when a dispatched row has no neighbours; otherwise the `i`-th cell's values fill columns `starts[i] ..` of rows 0 and 1 |
| VelocityRead.TrueIndices | cellrank/tl/kernels/_velocity_kernel.py:131-146 | boolean-mask indexing selects, in increasing order, exactly the positions whose mask entry is `True` |
| VelocityRead.TrueIndicesAll | cellrank/tl/kernels/_velocity_kernel.py:119 | the all-`True` mask selects every position in order |
| VelocityRead.SelectCols | cellrank/tl/kernels/_velocity_kernel.py:131-140 | `x[:, ix]` keeps every row and takes, at column `k`, column `ix[k]` of `x` |
| VelocityRead.Compose | cellrank/tl/kernels/_velocity_kernel.py:145-146 | a selection of a selection names the original columns `ix[jx[k]]` |
| VelocityRead.SelectSelect | cellrank/tl/kernels/_velocity_kernel.py:131-146 | selecting the subset and then the finite genes is one selection by the composed positions |
| VelocityRead.SelectAll | cellrank/tl/kernels/_velocity_kernel.py:119 | selecting by the all-`True` mask changes nothing |
| VelocityRead.ComposeIncreasing | cellrank/tl/kernels/_velocity_kernel.py:145-146 | the genes kept after both selections stay in their original order |
| VelocityRead.FiniteColumns | cellrank/tl/kernels/_velocity_kernel.py:143 | `~nans` marks exactly the genes whose velocity has no NaN in any cell |
| VelocityRead.SelectedNaN | cellrank/tl/kernels/_velocity_kernel.py:143-146 | a selected column has a NaN exactly when the original column does |
| VelocityRead.GeneMask | cellrank/tl/kernels/_velocity_kernel.py:118-124 | with `gene_subset` a gene is kept exactly when its name is listed; otherwise the `{vkey}_genes` column when present; otherwise every gene |
| VelocityRead.XKey | cellrank/tl/kernels/_velocity_kernel.py:127-128 | the expression layer is `xkey` when present, else `"spliced"` |
| VelocityRead.ReadFromAdata | cellrank/tl/kernels/_velocity_kernel.py:109-161 | `KeyError` exactly when the velocity layer or the chosen expression layer is missing; the velocity parameters are stored exactly when `{vkey}_params` is in `.uns`, and are that entry |
| VelocityRead.KeptGenes | cellrank/tl/kernels/_velocity_kernel.py:131-146 | the kept genes are positions of `.var_names` |
| VelocityRead.KeptGenesExactly | cellrank/tl/kernels/_velocity_kernel.py:117-146 | a gene is kept exactly when the mask selects it and its velocity has no NaN; kept genes keep their order |
| VelocityRead.ReadKeepsSameGenes | cellrank/tl/kernels/_velocity_kernel.py:131-146 | on success, velocity and expression are the two layers restricted to the same kept genes, with one row per cell, and no stored velocity is NaN |
| VelocityKernels.RequestKey | cellrank/tl/kernels/_velocity_kernel.py:232-236 | the key holds the requested scale, the effective mode and the given (else drawn) seed, and holds `bwd_mode` exactly for a backward kernel |
| VelocityKernels.PassNegates | cellrank/tl/kernels/_velocity_kernel.py:443-448 | a deterministic pass negates the kernel's velocities only for a backward kernel in "negate" mode |
| VelocityKernels.Run | cellrank/tl/kernels/_velocity_kernel.py:212-318 | a call that raises nothing leaves the cache as it was or with the stored result computed for the stored key; the stored result changes only when nothing is raised; the sign of `_velocity` changes only for a backward kernel in "negate" mode negating in place |
| VelocityKernels.Compute | cellrank/tl/kernels/_velocity_kernel.py:165-321 | as written, a new result is stored only by a call that raises nothing, under the key stored with it; only a backward kernel in "negate" mode changes the sign of `_velocity` |
| VelocityKernels.ComputeIntended | cellrank/tl/kernels/_velocity_kernel.py:165-321 | with the corrections, a call that raises leaves the cache unchanged, the sign of `_velocity` never changes, and a new result is computed from the velocities as they stand |
| VelocityKernels.IntendedRaisesAsWritten | cellrank/tl/kernels/_velocity_kernel.py:165-321 | the corrected call raises exactly what the original raises |
| VelocityKernels.BadModeChangesNothing | cellrank/tl/kernels/_velocity_kernel.py:212-213 | an unknown mode or backward mode raises `ValueError` and leaves the cache as it was |
| VelocityKernels.CacheHit | cellrank/tl/kernels/_velocity_kernel.py:238-243 | a key equal to `_params` changes nothing and fails exactly when no result is stored, with `AssertionError` |
| VelocityKernels.CacheIgnoresExecutionOptions | cellrank/tl/kernels/_velocity_kernel.py:232-243 | `n_samples`, `use_numba` and `backend` are not part of the key: once a key is cached, changing them returns the same outcome |
| VelocityKernels.RecomputeStoresItsKey | cellrank/tl/kernels/_velocity_kernel.py:245-318 | a successful recomputation stores the requested key with the scale filled in (given, else estimated) together with a result computed under it, in the mode `ExecutedMode` gives, deterministic for a backward kernel |
| VelocityKernels.UnscaledRequestRecomputes | cellrank/tl/kernels/_velocity_kernel.py:272-293 | when the stored key carries a scale, as it does after any successful call (an estimate that raised leaves an unscaled key stored), a request without `softmax_scale` never hits the cache; when the estimate and the run succeed it stores the newly estimated scale |
| VelocityKernels.SuccessKeepsCacheSound | cellrank/tl/kernels/_velocity_kernel.py:238-318 | a call that raises nothing leaves the stored result computed for the stored key |
| VelocityKernels.InterruptedRunLeavesStaleCache | cellrank/tl/kernels/_velocity_kernel.py:245-311 | as written, a run interrupted after `_params` was replaced leaves the old result under the new key, and the repeated request returns it without error |
| VelocityKernels.IntendedKeepsCacheSound | cellrank/tl/kernels/_velocity_kernel.py:238-318 | storing key and result together only after the run succeeds keeps the stored result matched to the stored key whatever happens |
| VelocityKernels.InterruptedRunRecomputes | cellrank/tl/kernels/_velocity_kernel.py:245-318 | with the correction, the same three calls recompute on the third and store the new scale |
| VelocityKernels.NegateModeCorruptsVelocity | cellrank/tl/kernels/_velocity_kernel.py:443-448 | as written, a backward kernel in "negate" mode run as one compiled loop: without a scale, the estimation pass negates `_velocity`, so the main run predicts from the forward velocities; with a scale, the first call leaves `_velocity` negated and the next recomputation predicts from it |
| VelocityKernels.IntendedKeepsVelocityIntact | cellrank/tl/kernels/_velocity_kernel.py:443-448 | with the correction, `_velocity` stays as read and every stored result is computed from it |
| VelocityKernels.VelocityKernel.constructor | cellrank/tl/kernels/_velocity_kernel.py:83-107 | a new kernel has no parameters, no result and nothing read |
| VelocityKernels.VelocityKernel.ReadFromAdata | cellrank/tl/kernels/_velocity_kernel.py:109-161 | stores exactly what `VelocityRead.ReadFromAdata` yields, or raises its `KeyError` and stores nothing; the cache is untouched |
| VelocityKernels.VelocityKernel.ComputeTransitionMatrix | cellrank/tl/kernels/_velocity_kernel.py:165-321 | the step-by-step method behaves as `ComputeIntended`: on a hit or an error the cache is unchanged, otherwise it holds the new key with its result (so, by `IntendedKeepsCacheSound`, the stored result always matches the stored key, and by `IntendedRaisesAsWritten` it raises what the original raises); the velocities, expression and velocity parameters read are untouched, since "negate" mode negates a copy |
| VelocityKernels.VelocityKernel.Recompute | cellrank/tl/kernels/_velocity_kernel.py:245-318 | after a miss: an estimation failure or a run failure is raised and nothing is stored; otherwise the final key (the estimated scale filled in) is stored with the result computed under it |

## Left out

- The numbers are not modelled: transition probabilities, Pearson correlations, the moments from `get_moments`, and the softmax scale estimated as `1 / median(|cmat.data|)`. A stored result records the key, the mode run, the execution path, the backend and the scale. `RunDeterministic` takes each row's predicted probabilities and correlations as inputs.
- Randomness is a parameter:
  - the seed drawn by `np.random.randint(0, 2 ** 16)` is `Env.drawnSeed`;
  - the permutation made by `np.random.shuffle` is the `shuffled` argument.
- The numba machinery is not modelled. Jitting, `prange` parallelism, `parallelize`, its queue and the progress bar are left out beyond which path a call takes and its unit.
- Logging text is left out. Only the records of `logger` and the error records of `shadow` are modelled.
- `_DEFAULT_BACKEND` is taken to be `"loky"`. The file that defines it is not part of this model.
- `_calculate_starts` is not part of this model. It is modelled by its contract: the running sums of the dispatched rows' degrees.
- `_run_mc`, `_run_stochastic` and `_reconstruct_matrices` are not modelled beyond the dispatch, row order and progress unit.
- The propagation tuple handling is not modelled: `_tmats`, `_pcors` and `_current_ix`.
- The base `Kernel` is not part of this model: its `__init__`, `_read_from_adata` and `_compute_transition_matrix`, the connectivity matrix `_conn` and the condition number. The base constructor's call to `_read_from_adata` is the separate method `VelocityKernel.ReadFromAdata` here.
- `copy()`, `BaseProtocol` and `PlotMode` are not modelled.
- The `shadow` context object (`instance._shadow`) is not modelled; a call on it is the `Shadowed` target.
- `bias_knn`'s `_connected` assertions are not modelled. `_connected` is not part of this model.
- `bias_knn` works on pseudotimes and weights as exact reals. NaN comparisons and floating-point rounding of `n_neighbors / k` and `len(row) * frac_to_keep` are left out.
- KnnBias.BiasedKeepsHeaviest: assumes the columns within a row are distinct (canonical CSR). With a repeated column, `conn_biased[i, rem_ixs] = 0` could also zero a top-ranked duplicate.
- KnnBias.BiasedKeepsLaterIff: assumes distinct columns within a row, for the same reason.
- KnnBias.BiasKnn: its exact result is stated for the tie-break that `Argsort.ArgsortAscending` fixes, one of those NumPy allows. The tie-independent statements are `BiasedKeepsHeaviest`, `BiasedKeepsLaterIff`, `HeavyEntryNotRemoved` and `LightEntryRemovedIff`.
- KnnBias.BiasKnn: a row with a repeated column is taken as stored. SciPy's row slicing and `conn_biased[i, rem_ixs] = 0` sum duplicates and sort the indices; the model keeps each stored entry and zeroes every entry of a removed column.
- KnnBias.BiasKnn: the pseudotime array must cover every row and column (`Fits`). The `IndexError` that NumPy raises for a shorter array is not modelled.
- VelocityRun.DispatchOrder: `NonZeroCount` counts stored non-zero entries. With a repeated column, SciPy's `(conn != 0).sum(1)` would first sum the duplicates.
- VelocityKernels.Compute: a pass that raises is taken to raise before negating any row. A pass interrupted part-way would leave some rows negated.
- VelocityKernels.PassNegates: whether the workers of `parallelize` operate on the kernel's own array is the parameter `Env.workersShareVelocity`. `parallelize` is not part of this model.
- `_read_from_adata` ignores dense versus sparse storage (`.A`) and the float64 cast. NaN is the only non-finite value: an `inf - inf` sum producing NaN is not modelled.
- `VelocityRead.ReadFromAdata` leaves out the branch that uses `gene_subset` itself as the mask when `.var_names` is empty (`len(var_names_subset) == 0`).
- Python values other than `None`, booleans, integers, floats and strings are modelled by an identity and the truthiness their `__bool__` or `__len__` gives (`PyOther`); nothing else about them is modelled.
- SafeGetter: the snapshot is modelled as an attribute map whose values are shared objects, with a fresh copy for `_shadow_adata`. Python's full `__dict__` identity and deep-copy semantics beyond that one copy are not modelled.

## Findings

| source | as written | input that shows it | evidently intended | confidence | as-written member | corrected member |
|---|---|---|---|---|---|---|
| cellrank/tl/kernels/_velocity_kernel.py:245 | `self._params = params` is stored before the moments, the scale estimate and the run; if any of them raises, `_params` names a result that was never stored | a forward kernel: (1) deterministic mode with `softmax_scale=1.0, seed=0` succeeds; (2) the same call with `softmax_scale=2.0` is interrupted (`KeyboardInterrupt`) during the run; (3) repeating call (2) hits the cache and returns, without error, the matrix computed for scale 1.0 | store the new key together with the new result, only once the run has succeeded; `VelocityKernel.ComputeTransitionMatrix` does this | not executed | VelocityKernels.InterruptedRunLeavesStaleCache | VelocityKernels.IntendedKeepsCacheSound |
| cellrank/tl/kernels/_velocity_kernel.py:443-448 | `v = np.expand_dims(velocity[ix], 0)` is a view of the kernel's velocity row, and `v *= -1` negates that row of `_velocity` in place | a backward kernel with `backward_mode="negate"`, `use_numba=True`: (a) with `softmax_scale=None`, the estimation pass negates every row and the main pass reads the negated rows, so it predicts with the forward velocities and flips them back; (b) with `softmax_scale=1.0`, `_velocity` stays negated, and a later call with `softmax_scale=2.0` predicts with the forward velocities | negate a copy of the row (`v = -velocity[ix]`), leaving `_velocity` as read; `VelocityKernel.ComputeTransitionMatrix` does this | not executed | VelocityKernels.NegateModeCorruptsVelocity | VelocityKernels.IntendedKeepsVelocityIntact |
