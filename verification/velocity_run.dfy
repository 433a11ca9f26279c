/**
 * How the velocity kernel runs a computation: the mode dispatch, the guards
 * of `_run`, the row order and progress unit of `_run_in_parallel`, and the
 * segment layout that `_run_deterministic` fills, one contiguous segment of
 * the output per dispatched cell.
 */
module VelocityRun {
  import opened Wrappers
  import opened Exceptions
  import opened Argsort
  import opened Csr
  import opened VelocityModes

  /** The per-cell workers: `_run_deterministic`, `_run_mc` and `_run_stochastic`. */
  datatype Worker = DeterministicWorker | McWorker | StochasticWorker

  /** Only the numba-compiled workers carry a `py_func` attribute; `_run_stochastic` is plain Python. */
  predicate HasPyFunc(w: Worker) {
    w != StochasticWorker
  }

  /** A worker together with the keywords that shape its output. */
  datatype Call = Call(worker: Worker, nSamples: int, average: bool)

  /** How a call is executed. */
  datatype Execution =
    | InParallel(call: Call, unjitted: bool)  // `_run_in_parallel`: the rows are split among workers
    | WholeLoopJitted(call: Call)             // one compiled call over the rows in their natural order

  /**
   * `_run`: refuses the stochastic worker without JAX (`RuntimeError`); then
   * runs in parallel unless `use_numba` is `True`, dropping the compiled outer
   * loop (`py_func`) when `use_numba` is `False` rather than `None`.
   */
  function RunCall(call: Call, useNumba: Option<bool>, hasJax: bool): (r: Result<Execution, ExcType>)
    ensures r.Failure? <==> call.worker == StochasticWorker && !hasJax
    ensures r.Failure? ==> r.error == RuntimeError
    ensures r.Success? ==> r.value.call == call && (r.value.InParallel? <==> useNumba != Some(true))
    ensures r.Success? && r.value.InParallel? ==>
              (r.value.unjitted <==> useNumba == Some(false) && call.worker != StochasticWorker)
  {
    if call.worker == StochasticWorker && !hasJax then Failure(RuntimeError)
    else
      match useNumba
      case Some(true) => Success(WholeLoopJitted(call))
      case Some(false) => Success(InParallel(call, HasPyFunc(call.worker)))
      case None => Success(InParallel(call, false))
  }

  /** The worker each mode registers with `_dispatch_computation`. */
  function WorkerOf(mode: Mode): Worker {
    match mode
    case Deterministic => DeterministicWorker
    case Stochastic => StochasticWorker
    case Sampling | MonteCarlo | Propagation => McWorker
  }

  /**
   * `_dispatch_computation(mode, ...)`: sampling forces one sample,
   * propagation keeps every sample instead of averaging, the stochastic mode
   * goes straight to `_run_in_parallel`, and every other mode goes through
   * `_run`.
   */
  function Dispatch(mode: Mode, nSamples: int, useNumba: Option<bool>, hasJax: bool): (r: Result<Execution, ExcType>)
    ensures r.Success?
    ensures r.value.call.worker == WorkerOf(mode)
    ensures r.value.call.nSamples == if mode == Sampling then 1 else nSamples
    ensures r.value.call.average <==> mode != Propagation
    ensures mode == Stochastic ==> r.value == InParallel(Call(StochasticWorker, nSamples, true), false)
    ensures mode != Stochastic ==> r == RunCall(r.value.call, useNumba, hasJax)
  {
    match mode
    case Stochastic => Success(InParallel(Call(StochasticWorker, nSamples, true), false))
    case Deterministic => RunCall(Call(DeterministicWorker, nSamples, true), useNumba, hasJax)
    case MonteCarlo => RunCall(Call(McWorker, nSamples, true), useNumba, hasJax)
    case Sampling => RunCall(Call(McWorker, 1, true), useNumba, hasJax)
    case Propagation => RunCall(Call(McWorker, nSamples, false), useNumba, hasJax)
  }

  /** `(conn != 0).sum(1)[i]`: the stored non-zero entries of row `i`. */
  function NonZeroCount(m: Matrix, i: nat): (c: nat)
    requires Valid(m) && i < m.nRows
    ensures c <= Degree(m, i)
    ensures c == Degree(m, i) <==> forall t :: 0 <= t < Degree(m, i) ==> RowEntries(m, i)[t].w != 0.0
  {
    |NonZero(RowEntries(m, i))|
  }

  /**
   * `ixs` of `_run_in_parallel`: for the stochastic worker the rows by
   * ascending number of non-zero neighbours, otherwise `shuffled`, the
   * random permutation `np.random.shuffle` makes of `arange(n)`.
   */
  function DispatchOrder(worker: Worker, m: Matrix, shuffled: seq<nat>): (ixs: seq<nat>)
    requires Valid(m) && IsPermutation(shuffled, m.nRows)
    ensures IsPermutation(ixs, m.nRows)
    ensures worker == StochasticWorker ==>
              forall a, b :: 0 <= a < b < |ixs| ==> NonZeroCount(m, ixs[a]) <= NonZeroCount(m, ixs[b])
    ensures worker != StochasticWorker ==> ixs == shuffled
  {
    if worker == StochasticWorker then
      ArgsortAscending(seq(m.nRows, i requires 0 <= i < m.nRows => NonZeroCount(m, i) as real))
    else shuffled
  }

  /** The progress-bar unit of `_run_in_parallel`. */
  function ProgressUnit(worker: Worker, nSamples: int): (u: string)
    ensures u == "sample" || u == "cell"
    ensures u == "sample" <==> worker == McWorker && nSamples > 1
  {
    if worker == McWorker && nSamples > 1 then "sample" else "cell"
  }

  /**
   * When a dispatched call runs in parallel, the only path with a progress
   * bar, progress is counted in samples exactly for Monte Carlo and
   * propagation with more than one sample.
   */
  lemma {:induction false} SampleUnitModes(mode: Mode, nSamples: int, useNumba: Option<bool>, hasJax: bool)
    ensures var c := Dispatch(mode, nSamples, useNumba, hasJax).value.call;
            ProgressUnit(c.worker, c.nSamples) == "sample" <==> (mode == MonteCarlo || mode == Propagation) && nSamples > 1
  {
  }

  /** The rows in the order they are computed: `DispatchOrder` in parallel, the natural order in one compiled loop. */
  function RowOrder(e: Execution, m: Matrix, shuffled: seq<nat>): (ixs: seq<nat>)
    requires Valid(m) && IsPermutation(shuffled, m.nRows)
    ensures IsPermutation(ixs, m.nRows)
  {
    match e
    case InParallel(c, _) => DispatchOrder(c.worker, m, shuffled)
    case WholeLoopJitted(_) => RangeIsPermutation(m.nRows); Range(m.nRows)
  }

  /** What `_run_deterministic` derives a cell's transition probabilities from. */
  datatype Predictor =
    | ZeroVector                  // `_get_probs_for_zero_vec`: the velocity used is all zeros
    | OwnVelocity(negated: bool)  // the cell's own velocity, against the displacements to its neighbours
    | NeighbourVelocities         // the neighbours' velocities, against the displacements back to the cell

  /**
   * The branch `_run_deterministic` takes for one cell: a backward kernel in
   * transpose mode asks how likely each neighbour is to move to the cell;
   * otherwise the cell's own velocity is used, negated for a backward kernel,
   * unless it is all zeros.
   */
  function DeterministicPredictor(backward: bool, bwdMode: BackwardMode, velocityIsZero: bool): (p: Predictor)
    ensures p.NeighbourVelocities? <==> backward && bwdMode.Transpose?
    ensures p.ZeroVector? <==> !(backward && bwdMode.Transpose?) && velocityIsZero
    ensures p.OwnVelocity? ==> (p.negated <==> backward)
  {
    if !backward || bwdMode.Negate? then
      if velocityIsZero then ZeroVector else OwnVelocity(backward)
    else NeighbourVelocities
  }

  // ---------------------------------------------------------------------------
  // Segment layout

  /** The number of neighbours of each dispatched row, in dispatch order. */
  function Degrees(m: Matrix, ixs: seq<nat>): (d: seq<nat>)
    requires Valid(m) && IndicesBelow(ixs, m.nRows)
    ensures |d| == |ixs| && forall i :: 0 <= i < |ixs| ==> d[i] == Degree(m, ixs[i])
  {
    seq(|ixs|, i requires 0 <= i < |ixs| => Degree(m, ixs[i]))
  }

  /** Running sums of `d`: where the segment of each entry begins, the first at 0; every segment ends within the total. */
  function Offsets(d: seq<nat>): (s: seq<nat>)
    ensures |s| == |d| + 1 && s[0] == 0
    ensures forall i :: 0 <= i < |d| ==> s[i] + d[i] <= s[|d|]
  {
    if |d| == 0 then [0]
    else
      var p := Offsets(d[..|d| - 1]);
      p + [p[|d| - 1] + d[|d| - 1]]
  }

  /**
   * `_calculate_starts(indptr, ixs)`, whose source is not part of this model,
   * as the workers use it: the running sums of the dispatched rows' degrees.
   */
  function Starts(m: Matrix, ixs: seq<nat>): (s: seq<nat>)
    requires Valid(m) && IndicesBelow(ixs, m.nRows)
    ensures |s| == |ixs| + 1
    ensures forall i :: 0 <= i < |ixs| ==> s[i] + Degree(m, ixs[i]) <= s[|ixs|]
  {
    Offsets(Degrees(m, ixs))
  }

  /** Each segment is followed directly by the next one. */
  lemma {:induction false} OffsetsStep(d: seq<nat>, i: nat)
    requires i < |d|
    ensures Offsets(d)[i + 1] == Offsets(d)[i] + d[i]
  {
    var n := |d|;
    if i < n - 1 {
      OffsetsStep(d[..n - 1], i);
    }
  }

  /** Segment starts never decrease. */
  lemma {:induction false} OffsetsMonotone(d: seq<nat>, i: nat, j: nat)
    requires i <= j <= |d|
    ensures Offsets(d)[i] <= Offsets(d)[j]
    decreases j - i
  {
    if i < j {
      OffsetsStep(d, i);
      OffsetsMonotone(d, i + 1, j);
    }
  }

  /** The segment of an earlier entry ends before a later one starts. */
  lemma {:induction false} SegmentBefore(d: seq<nat>, j: nat, i: nat)
    requires j < i <= |d|
    ensures Offsets(d)[j] + d[j] <= Offsets(d)[i]
  {
    OffsetsStep(d, j);
    OffsetsMonotone(d, j + 1, i);
  }

  /** Position `c` lies in the segment of the `i`-th entry. */
  predicate InSegment(d: seq<nat>, i: nat, c: nat) {
    i < |d| && Offsets(d)[i] <= c < Offsets(d)[i + 1]
  }

  /** The segments tile the output: every position below the total lies in exactly one of them. */
  lemma {:induction false} SegmentOf(d: seq<nat>, c: nat)
    requires c < Offsets(d)[|d|]
    ensures exists i: nat :: InSegment(d, i, c)
    ensures forall i: nat, j: nat :: InSegment(d, i, c) && InSegment(d, j, c) ==> i == j
  {
    var s := Offsets(d);
    var k := 0;
    while k + 1 < |d| && s[k + 1] <= c
      invariant 0 <= k < |d| && s[k] <= c
      decreases |d| - k
    {
      k := k + 1;
    }
    if k + 1 == |d| {
      assert c < s[k + 1];
    }
    assert InSegment(d, k, c);
    forall i: nat, j: nat | InSegment(d, i, c) && InSegment(d, j, c)
      ensures i == j
    {
      if i != j {
        SegmentsDisjoint(d, i, j, c);
      }
    }
  }

  /** No position lies in two segments. */
  lemma {:induction false} SegmentsDisjoint(d: seq<nat>, i: nat, j: nat, c: nat)
    requires i != j && InSegment(d, i, c)
    ensures !InSegment(d, j, c)
  {
    if i < j <= |d| {
      OffsetsMonotone(d, i + 1, j);
    } else if j < i {
      OffsetsMonotone(d, j + 1, i);
    }
  }

  /** The degree of each row of `m`, 0 past the last row. */
  function DegreeOf(m: Matrix): nat -> nat
    requires Valid(m)
  {
    (i: nat) => if i < m.nRows then Degree(m, i) else 0
  }

  /** The sum of `w` over the listed rows. */
  function Total(w: nat -> nat, ixs: seq<nat>): nat {
    if |ixs| == 0 then 0 else Total(w, ixs[..|ixs| - 1]) + w(ixs[|ixs| - 1])
  }

  /** The sum of a sequence of counts. */
  function Sum(d: seq<nat>): nat {
    if |d| == 0 then 0 else Sum(d[..|d| - 1]) + d[|d| - 1]
  }

  /** The last offset is the sum of all counts. */
  lemma {:induction false} OffsetsSum(d: seq<nat>)
    ensures Offsets(d)[|d|] == Sum(d)
  {
    var n := |d|;
    if n > 0 {
      OffsetsSum(d[..n - 1]);
      OffsetsStep(d, n - 1);
    }
  }

  /** Summing the dispatched rows' degrees in order is the total degree of those rows. */
  lemma {:induction false} DegreesSum(m: Matrix, ixs: seq<nat>)
    requires Valid(m) && IndicesBelow(ixs, m.nRows)
    ensures Sum(Degrees(m, ixs)) == Total(DegreeOf(m), ixs)
  {
    var n := |ixs|;
    if n > 0 {
      DegreesSum(m, ixs[..n - 1]);
      assert Degrees(m, ixs[..n - 1]) == Degrees(m, ixs)[..n - 1];
    }
  }

  /** The last start is the sum of the dispatched rows' degrees. */
  lemma {:induction false} StartsSum(m: Matrix, ixs: seq<nat>)
    requires Valid(m) && IndicesBelow(ixs, m.nRows)
    ensures Starts(m, ixs)[|ixs|] == Total(DegreeOf(m), ixs)
  {
    OffsetsSum(Degrees(m, ixs));
    DegreesSum(m, ixs);
  }

  /** Removing the entry at position `k` takes its weight out of the sum. */
  lemma {:induction false} TotalRemove(w: nat -> nat, ixs: seq<nat>, k: nat)
    requires k < |ixs|
    ensures Total(w, ixs) == Total(w, ixs[..k] + ixs[k + 1..]) + w(ixs[k])
    decreases |ixs|
  {
    var n := |ixs|;
    if k < n - 1 {
      var rest := ixs[..k] + ixs[k + 1..];
      TotalRemove(w, ixs[..n - 1], k);
      assert ixs[..n - 1][..k] == ixs[..k];
      assert ixs[..n - 1][k + 1..] == ixs[k + 1..n - 1];
      assert rest[..|rest| - 1] == ixs[..k] + ixs[k + 1..n - 1];
      assert rest[|rest| - 1] == ixs[n - 1];
    } else {
      assert ixs[..k] + ixs[k + 1..] == ixs[..n - 1];
    }
  }

  /** Taking the same element out of two equal multisets leaves them equal. */
  lemma {:induction false} RemoveMatching(a: seq<nat>, b: seq<nat>, k: nat)
    requires multiset(a) == multiset(b) && |a| > 0 && k < |b| && b[k] == a[|a| - 1]
    ensures multiset(a[..|a| - 1]) == multiset(b[..k] + b[k + 1..])
  {
    var x := a[|a| - 1];
    assert a == a[..|a| - 1] + [x];
    assert b == b[..k] + [x] + b[k + 1..];
    var A, B := multiset(a[..|a| - 1]), multiset(b[..k] + b[k + 1..]);
    assert A + multiset{x} == B + multiset{x};
    assert A == A + multiset{x} - multiset{x};
    assert B == B + multiset{x} - multiset{x};
  }

  /** The sum depends only on which rows are listed, not on their order. */
  lemma {:induction false} TotalPermutation(w: nat -> nat, a: seq<nat>, b: seq<nat>)
    requires multiset(a) == multiset(b)
    ensures Total(w, a) == Total(w, b)
    decreases |a|
  {
    if |a| > 0 {
      var x := a[|a| - 1];
      assert x in multiset(b);
      var k :| 0 <= k < |b| && b[k] == x;
      RemoveMatching(a, b, k);
      TotalPermutation(w, a[..|a| - 1], b[..k] + b[k + 1..]);
      TotalRemove(w, b, k);
    } else {
      assert |multiset(b)| == 0;
    }
  }

  /** Listing every row once, the degrees add up to the number of stored entries. */
  lemma {:induction false} DegreeSumAllRows(m: Matrix, n: nat)
    requires Valid(m) && n <= m.nRows
    ensures Total(DegreeOf(m), Range(n)) == m.indptr[n]
  {
    if n > 0 {
      assert Range(n)[..n - 1] == Range(n - 1);
      DegreeSumAllRows(m, n - 1);
    }
  }

  lemma {:induction false} PermutationMultiset(p: seq<nat>, n: nat)
    requires IsPermutation(p, n)
    ensures multiset(p) == multiset(Range(n))
  {
    forall x: nat
      ensures multiset(p)[x] == multiset(Range(n))[x]
    {
      if x in p {
        var a :| 0 <= a < |p| && p[a] == x;
        DistinctCount(p, a);
        assert Range(n)[x] == x;
        DistinctCount(Range(n), x);
      } else {
        assert x >= n;
        assert forall a :: 0 <= a < n ==> Range(n)[a] != x;
      }
    }
  }

  /** In a sequence without repeats, an element occurs exactly once. */
  lemma {:induction false} DistinctCount(p: seq<nat>, a: nat)
    requires Distinct(p) && a < |p|
    ensures multiset(p)[p[a]] == 1
    decreases |p|
  {
    var n := |p|;
    assert p == p[..n - 1] + [p[n - 1]];
    assert Distinct(p[..n - 1]);
    if a < n - 1 {
      DistinctCount(p[..n - 1], a);
      assert p[a] != p[n - 1];
    } else {
      var q := p[..n - 1];
      assert forall b :: 0 <= b < |q| ==> q[b] != p[a];
    }
  }

  /**
   * When every row is dispatched once, the output has exactly one column per
   * stored entry of the graph (`starts[-1] == nnz`).
   */
  lemma {:induction false} OutputWidth(m: Matrix, ixs: seq<nat>)
    requires Valid(m) && IsPermutation(ixs, m.nRows)
    ensures Starts(m, ixs)[|ixs|] == |m.data|
  {
    StartsSum(m, ixs);
    PermutationMultiset(ixs, m.nRows);
    TotalPermutation(DegreeOf(m), ixs, Range(m.nRows));
    DegreeSumAllRows(m, m.nRows);
  }

  /** `probs_cors[0, s : s + len(p)] = p` and `probs_cors[1, s : s + len(c)] = c`. */
  method WriteSegment(a: array2<real>, s: nat, p: seq<real>, c: seq<real>)
    requires a.Length0 == 2 && |p| == |c| && s + |p| <= a.Length1
    modifies a
    ensures forall t :: 0 <= t < |p| ==> a[0, s + t] == p[t] && a[1, s + t] == c[t]
    ensures forall col :: 0 <= col < s || s + |p| <= col < a.Length1 ==>
              a[0, col] == old(a[0, col]) && a[1, col] == old(a[1, col])
  {
    var t := 0;
    while t < |p|
      invariant 0 <= t <= |p|
      invariant forall u :: 0 <= u < t ==> a[0, s + u] == p[u] && a[1, s + u] == c[u]
      invariant forall col :: 0 <= col < s || s + t <= col < a.Length1 ==>
                  a[0, col] == old(a[0, col]) && a[1, col] == old(a[1, col])
    {
      a[0, s + t] := p[t];
      a[1, s + t] := c[t];
      t := t + 1;
    }
  }

  /**
   * The loop of `_run_deterministic`, over the degrees `d` of the dispatched
   * rows and the values `ps`, `cs` predicted for each: a row without
   * neighbours fails the `n_neigh > 0` assertion; otherwise the `j`-th
   * values fill columns `starts[j] .. starts[j] + d[j]` of rows 0 and 1.
   */
  method FillSegments(d: seq<nat>, ps: seq<seq<real>>, cs: seq<seq<real>>)
    returns (err: Option<ExcType>, probsCors: array2<real>)
    requires |ps| == |d| && |cs| == |d|
    requires forall j :: 0 <= j < |d| ==> |ps[j]| == d[j] && |cs[j]| == d[j]
    ensures fresh(probsCors)
    ensures probsCors.Length0 == 2 && probsCors.Length1 == Offsets(d)[|d|]
    ensures err.Some? <==> exists j :: 0 <= j < |d| && d[j] == 0
    ensures err.Some? ==> err.value == AssertionError
    ensures err.None? ==> forall j, t :: 0 <= j < |d| && 0 <= t < d[j] ==>
              probsCors[0, Offsets(d)[j] + t] == ps[j][t] && probsCors[1, Offsets(d)[j] + t] == cs[j][t]
  {
    var starts := Offsets(d);
    probsCors := new real[2, starts[|d|]];
    var i := 0;
    while i < |d|
      invariant 0 <= i <= |d|
      invariant forall j :: 0 <= j < i ==> d[j] > 0
      invariant forall j, t :: 0 <= j < i && 0 <= t < d[j] ==>
                  probsCors[0, starts[j] + t] == ps[j][t] && probsCors[1, starts[j] + t] == cs[j][t]
    {
      if d[i] == 0 {
        return Some(AssertionError), probsCors;
      }
      forall j | 0 <= j < i
        ensures starts[j] + d[j] <= starts[i]
      {
        SegmentBefore(d, j, i);
      }
      WriteSegment(probsCors, starts[i], ps[i], cs[i]);
      i := i + 1;
    }
    err := None;
  }

  /**
   * `_run_deterministic` over the dispatched rows `ixs`: every row must have a
   * neighbour (`AssertionError` otherwise); the probabilities and correlations
   * of the `i`-th dispatched cell fill rows 0 and 1 of the output at columns
   * `starts[i] .. starts[i] + degree`. `probs` and `cors` are what the
   * per-cell prediction yields for each row of the graph.
   */
  method RunDeterministic(m: Matrix, ixs: seq<nat>, probs: seq<seq<real>>, cors: seq<seq<real>>)
    returns (err: Option<ExcType>, probsCors: array2<real>)
    requires Valid(m) && IndicesBelow(ixs, m.nRows)
    requires |probs| == m.nRows && |cors| == m.nRows
    requires forall r :: 0 <= r < m.nRows ==> |probs[r]| == Degree(m, r) && |cors[r]| == Degree(m, r)
    ensures fresh(probsCors)
    ensures probsCors.Length0 == 2 && probsCors.Length1 == Starts(m, ixs)[|ixs|]
    ensures err.Some? <==> exists i :: 0 <= i < |ixs| && Degree(m, ixs[i]) == 0
    ensures err.Some? ==> err.value == AssertionError
    ensures err.None? ==> forall i, t :: 0 <= i < |ixs| && 0 <= t < Degree(m, ixs[i]) ==>
              probsCors[0, Starts(m, ixs)[i] + t] == probs[ixs[i]][t]
              && probsCors[1, Starts(m, ixs)[i] + t] == cors[ixs[i]][t]
  {
    var d := Degrees(m, ixs);
    var ps := seq(|ixs|, j requires 0 <= j < |ixs| => probs[ixs[j]]);
    var cs := seq(|ixs|, j requires 0 <= j < |ixs| => cors[ixs[j]]);
    err, probsCors := FillSegments(d, ps, cs);
  }
}
