/**
 * The velocity kernel object: what it stores after reading the dataset, and
 * `compute_transition_matrix`, which settles the mode, looks up its parameter
 * cache, and otherwise runs the computation and stores the result under the
 * parameters it was computed with.
 *
 * The numbers themselves (transition probabilities, correlations, the
 * estimated softmax scale) are not modelled: a stored result records which
 * run produced it. The sign of the stored velocities is modelled, because the
 * deterministic worker of a backward kernel in "negate" mode flips it in
 * place.
 */
module VelocityKernels {
  import opened Wrappers
  import opened Exceptions
  import opened VelocityModes
  import opened VelocityRun
  import VelocityRead

  /** The cache key `params`: `bwd_mode` is present only for a backward kernel. */
  datatype Params = Params(softmaxScale: Option<real>, mode: Mode, seed: int, bwdMode: Option<BackwardMode>)

  /** The arguments of `compute_transition_matrix`; `backend` is the optional `backend` keyword. */
  datatype Request = Request(
    mode: string,
    backwardMode: string,
    softmaxScale: Option<real>,
    nSamples: int,
    seed: Option<int>,
    useNumba: Option<bool>,
    backend: Option<string>)

  /**
   * What the computation depends on beyond its arguments: whether JAX is
   * installed, the Python version, the seed `np.random.randint(0, 2 ** 16)`
   * draws, the softmax scale the estimation run yields, the exception (if
   * any) each of the two dispatches raises, and whether parallel workers
   * operate on the kernel's own velocity array (threads or a single job in the
   * kernel's process) rather than on a copy; `parallelize`, which decides
   * that, is not part of this model.
   */
  datatype Env = Env(
    hasJax: bool,
    pyMajor: nat,
    pyMinor: nat,
    drawnSeed: nat,
    estimatedScale: real,
    estimateError: Option<ExcType>,
    runError: Option<ExcType>,
    workersShareVelocity: bool)

  /**
   * A stored result (`_transition_matrix` and `_pearson_correlations`), known
   * by the run that produced it; `readNegated` says whether `_velocity` held
   * the negation of the velocities read when that run started.
   */
  datatype Computed = Computed(key: Params, executed: Mode, execution: Execution, backend: string,
                               softmaxScale: real, readNegated: bool)

  /**
   * The kernel's cache: `_params` (`None` for the initial empty dictionary)
   * and the stored result; `negated` says whether `_velocity` currently holds
   * the negation of the velocities read.
   */
  datatype State = State(params: Option<Params>, computed: Option<Computed>, negated: bool)

  /** The outcome of a call: the exception it raised, if any, and the cache afterwards. */
  datatype Step = Step(err: Option<ExcType>, state: State)

  /** The stored result is the one computed for the stored parameters. */
  predicate CacheSound(st: State) {
    st.params.Some? ==> st.computed.Some? && st.computed.value.key == st.params.value
  }

  /** `_velocity` holds the velocities read, and the stored result was computed from them. */
  predicate VelocityIntact(st: State) {
    !st.negated && (st.computed.Some? ==> !st.computed.value.readNegated)
  }

  /** The cache key built for a request, before any softmax scale is estimated. */
  function RequestKey(backward: bool, m: Mode, b: BackwardMode, q: Request, env: Env): (p: Params)
    ensures p.bwdMode.Some? <==> backward
    ensures p.mode == EffectiveMode(m, backward, env.hasJax)
    ensures p.softmaxScale == q.softmaxScale
    ensures q.seed.Some? ==> p.seed == q.seed.value
    ensures q.seed.None? ==> p.seed == env.drawnSeed
  {
    Params(q.softmaxScale, EffectiveMode(m, backward, env.hasJax), q.seed.GetOr(env.drawnSeed),
           if backward then Some(b) else None)
  }

  /**
   * Whether one deterministic pass flips the sign of `_velocity`:
   * `v = np.expand_dims(velocity[ix], 0)` is a view of the kernel's row, and
   * `v *= -1` negates it in place for a backward kernel in "negate" mode. This
   * reaches the kernel's array when the whole loop runs as one compiled call,
   * or when the workers share the kernel's array.
   */
  function PassNegates(backward: bool, b: BackwardMode, q: Request, env: Env): (flips: bool)
    ensures flips ==> backward && b == Negate
  {
    && backward && b == Negate
    && (Dispatch(Deterministic, q.nSamples, q.useNumba, env.hasJax).value.WholeLoopJitted?
        || env.workersShareVelocity)
  }

  /** The result a run under the final key `key` stores. */
  function RunResult(key: Params, q: Request, env: Env, scale: real, readNegated: bool): Computed {
    var executed := ExecutedMode(key.mode, q.nSamples);
    Computed(key, executed, Dispatch(executed, q.nSamples, q.useNumba, env.hasJax).value,
             ResolveBackend(env.pyMajor, env.pyMinor, executed, q.backend), scale, readNegated)
  }

  /**
   * `compute_transition_matrix` with `_params` replaced by the new key before
   * anything is computed, and the estimated softmax scale written into that
   * same key once the estimation run has finished. `inPlace` says whether a
   * "negate" pass negates the kernel's own velocities (as written) or a copy.
   * A call that raises nothing either changes nothing or leaves the stored
   * result matched to the stored key; only a backward kernel in "negate" mode
   * negating in place ever changes the sign of `_velocity`.
   */
  function Run(st: State, backward: bool, q: Request, env: Env, inPlace: bool): (s: Step)
    ensures s.err.None? ==> s.state == st || CacheSound(s.state)
    ensures s.state.computed != st.computed ==> s.err.None? && s.state.computed.Some?
    ensures s.state.computed != st.computed && !inPlace ==> s.state.computed.value.readNegated == st.negated
    ensures s.state.negated != st.negated ==> inPlace && backward && ParseBackwardMode(q.backwardMode) == Success(Negate)
  {
    match ParseMode(q.mode)
    case Failure(e) => Step(Some(e), st)
    case Success(m) =>
      match ParseBackwardMode(q.backwardMode)
      case Failure(e) => Step(Some(e), st)
      case Success(b) =>
        var key := RequestKey(backward, m, b, q, env);
        if st.params == Some(key) then
          Step(if st.computed.None? then Some(AssertionError) else None, st)
        else
          var flips := inPlace && PassNegates(backward, b, q, env);
          if q.softmaxScale.None? && env.estimateError.Some? then
            Step(env.estimateError, State(Some(key), st.computed, st.negated))
          else
            var atRun := if q.softmaxScale.None? then st.negated != flips else st.negated;
            var final := if q.softmaxScale.None? then key.(softmaxScale := Some(env.estimatedScale)) else key;
            if env.runError.Some? then Step(env.runError, State(Some(final), st.computed, atRun))
            else Step(None, State(Some(final), Some(RunResult(final, q, env, final.softmaxScale.value, atRun)),
                                  atRun != flips))
  }

  /** `compute_transition_matrix` as written. */
  function Compute(st: State, backward: bool, q: Request, env: Env): (s: Step)
    ensures s.state.computed != st.computed ==> s.err.None? && CacheSound(s.state)
    ensures s.state.negated != st.negated ==> backward && ParseBackwardMode(q.backwardMode) == Success(Negate)
  {
    Run(st, backward, q, env, true)
  }

  /**
   * `compute_transition_matrix` as evidently intended: the "negate" pass
   * negates a copy of the velocities, and the new key and the new result are
   * stored together, only once the run has succeeded. It raises what the
   * original raises, changes nothing when it raises, and never changes the
   * sign of `_velocity`.
   */
  function ComputeIntended(st: State, backward: bool, q: Request, env: Env): (s: Step)
    ensures s.err.Some? ==> s.state == st
    ensures s.state.negated == st.negated
    ensures s.state.computed != st.computed ==> s.state.computed.Some? && s.state.computed.value.readNegated == st.negated
  {
    var s := Run(st, backward, q, env, false);
    if s.err.Some? then Step(s.err, st) else s
  }

  /** The corrected call, branch by branch, on a kernel whose velocities are as read. */
  lemma {:induction false} IntendedOutcome(st: State, backward: bool, m: Mode, b: BackwardMode, q: Request, env: Env)
    requires ParseMode(q.mode) == Success(m) && ParseBackwardMode(q.backwardMode) == Success(b)
    ensures var key := RequestKey(backward, m, b, q, env);
            var s := ComputeIntended(st, backward, q, env);
            var estimateFails := q.softmaxScale.None? && env.estimateError.Some?;
            var final := if q.softmaxScale.None? then key.(softmaxScale := Some(env.estimatedScale)) else key;
            && (st.params == Some(key) ==> s == Step(if st.computed.None? then Some(AssertionError) else None, st))
            && (st.params != Some(key) && estimateFails ==> s == Step(env.estimateError, st))
            && (st.params != Some(key) && !estimateFails && env.runError.Some? ==> s == Step(env.runError, st))
            && (st.params != Some(key) && !estimateFails && env.runError.None? ==>
                  s == Step(None, State(Some(final), Some(RunResult(final, q, env, final.softmaxScale.value, st.negated)), st.negated)))
  {
  }

  /**
   * The corrected call raises exactly what the original raises: negating a
   * copy and storing the key late change the cache, never the outcome.
   */
  lemma {:induction false} IntendedRaisesAsWritten(st: State, backward: bool, q: Request, env: Env)
    ensures ComputeIntended(st, backward, q, env).err == Compute(st, backward, q, env).err
  {
    var s := Run(st, backward, q, env, false);
    var w := Run(st, backward, q, env, true);
    assert s.err == w.err;
  }

  // ---------------------------------------------------------------------------
  // Properties of a single call

  /** Unknown mode names raise `ValueError` and change nothing. */
  lemma {:induction false} BadModeChangesNothing(st: State, backward: bool, q: Request, env: Env)
    requires ParseMode(q.mode).Failure? || ParseBackwardMode(q.backwardMode).Failure?
    ensures Compute(st, backward, q, env) == Step(Some(ValueError), st)
  {
  }

  /**
   * A request whose key equals the stored parameters recomputes nothing: it
   * returns what is stored, or fails the empty-cache assertion when nothing
   * is.
   */
  lemma {:induction false} CacheHit(st: State, backward: bool, q: Request, env: Env)
    requires ParseMode(q.mode).Success? && ParseBackwardMode(q.backwardMode).Success?
    requires st.params == Some(RequestKey(backward, ParseMode(q.mode).value, ParseBackwardMode(q.backwardMode).value, q, env))
    ensures Compute(st, backward, q, env).state == st
    ensures Compute(st, backward, q, env).err.Some? <==> st.computed.None?
    ensures Compute(st, backward, q, env).err.Some? ==> Compute(st, backward, q, env).err.value == AssertionError
  {
  }

  /**
   * The number of samples, `use_numba` and the backend are not part of the
   * key: once a key is cached, a request differing only in those returns the
   * same stored result.
   */
  lemma {:induction false} CacheIgnoresExecutionOptions(st: State, backward: bool, q: Request, env: Env,
                                                        nSamples: int, useNumba: Option<bool>, backend: Option<string>)
    requires ParseMode(q.mode).Success? && ParseBackwardMode(q.backwardMode).Success?
    requires st.params == Some(RequestKey(backward, ParseMode(q.mode).value, ParseBackwardMode(q.backwardMode).value, q, env))
    ensures Compute(st, backward, q.(nSamples := nSamples, useNumba := useNumba, backend := backend), env)
            == Compute(st, backward, q, env)
  {
    CacheHit(st, backward, q, env);
    var q' := q.(nSamples := nSamples, useNumba := useNumba, backend := backend);
    assert RequestKey(backward, ParseMode(q.mode).value, ParseBackwardMode(q.backwardMode).value, q', env)
        == RequestKey(backward, ParseMode(q.mode).value, ParseBackwardMode(q.backwardMode).value, q, env);
    CacheHit(st, backward, q', env);
  }

  /**
   * A successful call that recomputes stores a result under exactly the
   * parameters it stores: the requested key, with the estimated softmax scale
   * filled in when none was given. The key records the mode before the
   * switch from Monte Carlo to sampling; the result records the mode run.
   */
  lemma {:induction false} RecomputeStoresItsKey(st: State, backward: bool, q: Request, env: Env)
    requires ParseMode(q.mode).Success? && ParseBackwardMode(q.backwardMode).Success?
    requires var key := RequestKey(backward, ParseMode(q.mode).value, ParseBackwardMode(q.backwardMode).value, q, env);
             st.params != Some(key)
    requires Compute(st, backward, q, env).err.None?
    ensures var key := RequestKey(backward, ParseMode(q.mode).value, ParseBackwardMode(q.backwardMode).value, q, env);
            var s := Compute(st, backward, q, env).state;
            && CacheSound(s)
            && s.params == Some(key.(softmaxScale := Some(q.softmaxScale.GetOr(env.estimatedScale))))
            && s.computed.value.executed == ExecutedMode(key.mode, q.nSamples)
            && s.computed.value.softmaxScale == q.softmaxScale.GetOr(env.estimatedScale)
            && (backward ==> s.computed.value.executed == Deterministic)
  {
    var key := RequestKey(backward, ParseMode(q.mode).value, ParseBackwardMode(q.backwardMode).value, q, env);
    ExecutedModeOfRequest(ParseMode(q.mode).value, backward, env.hasJax, q.nSamples);
    if q.softmaxScale.Some? {
      assert key.(softmaxScale := q.softmaxScale) == key;
    }
  }

  /**
   * After a successful call the stored key always carries a softmax scale, so
   * a later request without one never hits the cache: it estimates the scale
   * and recomputes again.
   */
  lemma {:induction false} UnscaledRequestRecomputes(st: State, backward: bool, q: Request, env: Env)
    requires st.params.Some? && st.params.value.softmaxScale.Some?
    requires q.softmaxScale.None?
    requires ParseMode(q.mode).Success? && ParseBackwardMode(q.backwardMode).Success?
    requires env.estimateError.None? && env.runError.None?
    ensures Compute(st, backward, q, env).err.None?
    ensures Compute(st, backward, q, env).state.params.value.softmaxScale == Some(env.estimatedScale)
    ensures Compute(st, backward, q, env).state.computed.value.softmaxScale == env.estimatedScale
  {
  }

  /** A call that succeeds keeps the cache sound. */
  lemma {:induction false} SuccessKeepsCacheSound(st: State, backward: bool, q: Request, env: Env)
    requires CacheSound(st) && Compute(st, backward, q, env).err.None?
    ensures CacheSound(Compute(st, backward, q, env).state)
  {
    var s := Run(st, backward, q, env, true);
    assert s == Compute(st, backward, q, env);
    assert s.state == st || CacheSound(s.state);
  }

  // ---------------------------------------------------------------------------
  // The stale cache left by a failed call, and its correction

  /** A forward request in deterministic mode with an explicit scale and seed. */
  function DeterministicRequest(scale: real): Request {
    Request("deterministic", "transpose", Some(scale), 1000, Some(0), Some(false), None)
  }

  /** An environment in which the run raises `e` (or nothing), and the workers get copies. */
  function RunEnv(e: Option<ExcType>): Env {
    Env(true, 3, 8, 0, 1.0, None, e, false)
  }

  /**
   * As written, a run interrupted after `_params` was replaced leaves the old
   * result under the new key: repeating the interrupted request then returns,
   * without error, the result computed for the previous softmax scale.
   */
  lemma {:induction false} InterruptedRunLeavesStaleCache()
    ensures var st1 := Compute(State(None, None, false), false, DeterministicRequest(1.0), RunEnv(None)).state;
            var st2 := Compute(st1, false, DeterministicRequest(2.0), RunEnv(Some(KeyboardInterrupt))).state;
            var s3 := Compute(st2, false, DeterministicRequest(2.0), RunEnv(None));
            && CacheSound(st1)
            && !CacheSound(st2)
            && s3 == Step(None, st2)
            && st2.params.value.softmaxScale == Some(2.0)
            && s3.state.computed.value.softmaxScale == 1.0
  {
    var st1 := Compute(State(None, None, false), false, DeterministicRequest(1.0), RunEnv(None)).state;
    var st2 := Compute(st1, false, DeterministicRequest(2.0), RunEnv(Some(KeyboardInterrupt))).state;
    assert ParseMode("deterministic") == Success(Deterministic);
    assert ParseBackwardMode("transpose") == Success(Transpose);
    assert st1.computed.value.key.softmaxScale == Some(1.0);
    assert st2.params.value.softmaxScale == Some(2.0);
    assert st2.computed == st1.computed;
  }

  /** The corrected call keeps the cache sound whatever the run does. */
  lemma {:induction false} IntendedKeepsCacheSound(st: State, backward: bool, q: Request, env: Env)
    requires CacheSound(st)
    ensures CacheSound(ComputeIntended(st, backward, q, env).state)
  {
    var s := Run(st, backward, q, env, false);
    assert s.err.None? ==> s.state == st || CacheSound(s.state);
  }

  /** With the correction, the same three calls recompute the third time. */
  lemma {:induction false} InterruptedRunRecomputes()
    ensures var st1 := ComputeIntended(State(None, None, false), false, DeterministicRequest(1.0), RunEnv(None)).state;
            var st2 := ComputeIntended(st1, false, DeterministicRequest(2.0), RunEnv(Some(KeyboardInterrupt))).state;
            var s3 := ComputeIntended(st2, false, DeterministicRequest(2.0), RunEnv(None));
            && st2 == st1
            && s3.err.None?
            && s3.state.computed.value.softmaxScale == 2.0
  {
    assert ParseMode("deterministic") == Success(Deterministic);
    assert ParseBackwardMode("transpose") == Success(Transpose);
    var st1 := ComputeIntended(State(None, None, false), false, DeterministicRequest(1.0), RunEnv(None)).state;
    assert st1.params.value.softmaxScale == Some(1.0);
  }

  // ---------------------------------------------------------------------------
  // The velocities negated in place, and their correction

  /** A backward request in "negate" mode, run as one compiled loop, with scale `scale` (or none). */
  function NegateRequest(scale: Option<real>): Request {
    Request("deterministic", "negate", scale, 1000, Some(0), Some(true), None)
  }

  /**
   * As written, a backward kernel in "negate" mode corrupts its velocities.
   * Without a softmax scale, the estimation pass negates `_velocity` and the
   * main pass then reads the negated velocities (so it predicts from the
   * forward ones) and negates them back. With a scale, the first call leaves
   * `_velocity` negated, and the next recomputation, with another scale,
   * stores a result computed from the negated velocities.
   */
  lemma {:induction false} NegateModeCorruptsVelocity()
    ensures var s := Compute(State(None, None, false), true, NegateRequest(None), RunEnv(None));
            s.err.None? && s.state.computed.value.readNegated && !s.state.negated
    ensures var st1 := Compute(State(None, None, false), true, NegateRequest(Some(1.0)), RunEnv(None)).state;
            var s2 := Compute(st1, true, NegateRequest(Some(2.0)), RunEnv(None));
            && !st1.computed.value.readNegated && st1.negated
            && s2.err.None? && s2.state.computed.value.readNegated
  {
    assert ParseMode("deterministic") == Success(Deterministic);
    assert ParseBackwardMode("negate") == Success(Negate);
    assert Dispatch(Deterministic, 1000, Some(true), true).value.WholeLoopJitted?;
    var st1 := Compute(State(None, None, false), true, NegateRequest(Some(1.0)), RunEnv(None)).state;
    assert st1.params.value.softmaxScale == Some(1.0);
  }

  /** With the correction, the velocities stay as read and every stored result is computed from them. */
  lemma {:induction false} IntendedKeepsVelocityIntact(st: State, backward: bool, q: Request, env: Env)
    requires VelocityIntact(st)
    ensures VelocityIntact(ComputeIntended(st, backward, q, env).state)
  {
  }

  // ---------------------------------------------------------------------------
  // The kernel object

  class VelocityKernel {
    const backward: bool
    /** `_params`. */
    var params: Option<Params>
    /** `_transition_matrix` and `_pearson_correlations`, by the run that produced them. */
    var computed: Option<Computed>
    /** `_velocity`, `_gene_expression` and `_velocity_params`. */
    var velocity: VelocityRead.Dense
    var expression: VelocityRead.Dense
    var velocityParams: Option<VelocityRead.Stored>

    /** A kernel before anything has been read or computed. */
    constructor(backward: bool)
      ensures this.backward == backward
      ensures params.None? && computed.None?
      ensures velocity == [] && expression == [] && velocityParams.None?
    {
      this.backward := backward;
      params := None;
      computed := None;
      velocity := [];
      expression := [];
      velocityParams := None;
    }

    /** The cache; the corrected computation never negates `_velocity`, which stays as read. */
    function Cache(): State
      reads this
    {
      State(params, computed, false)
    }

    /**
     * `_read_from_adata`: stores the velocities, the expression and the
     * velocity parameters read from `a`, or raises `KeyError` and stores
     * nothing.
     */
    method ReadFromAdata(a: VelocityRead.AnnData, vkey: string, xkey: string, geneSubset: Option<seq<string>>)
      returns (err: Option<ExcType>)
      requires VelocityRead.WellFormed(a)
      modifies this
      ensures var r := VelocityRead.ReadFromAdata(a, vkey, xkey, geneSubset);
              && (err.Some? <==> r.Failure?)
              && (r.Failure? ==> err == Some(r.error) && velocity == old(velocity) && expression == old(expression)
                                 && velocityParams == old(velocityParams))
              && (r.Success? ==> velocity == r.value.velocity && expression == r.value.expression
                                 && velocityParams == r.value.velocityParams)
      ensures params == old(params) && computed == old(computed)
    {
      var r := VelocityRead.ReadFromAdata(a, vkey, xkey, geneSubset);
      if r.Failure? {
        return Some(r.error);
      }
      velocity := r.value.velocity;
      expression := r.value.expression;
      velocityParams := r.value.velocityParams;
      return None;
    }

    /**
     * `compute_transition_matrix`, with the stale-cache correction: parses the
     * modes, settles the mode, builds the key and returns early on a cache hit;
     * otherwise estimates the softmax scale when none is given, runs the
     * computation, and only then stores the key and the result together.
     */
    method ComputeTransitionMatrix(q: Request, env: Env) returns (err: Option<ExcType>)
      requires env.drawnSeed < 0x1_0000
      modifies this
      ensures Step(err, Cache()) == ComputeIntended(old(Cache()), backward, q, env)
      ensures velocity == old(velocity) && expression == old(expression) && velocityParams == old(velocityParams)
    {
      var pm := ParseMode(q.mode);
      if pm.Failure? {
        return Some(pm.error);
      }
      var pb := ParseBackwardMode(q.backwardMode);
      if pb.Failure? {
        return Some(pb.error);
      }
      var mode := pm.value;
      if backward && mode != Deterministic {
        mode := Deterministic;
      }
      if mode == Stochastic && !env.hasJax {
        mode := MonteCarlo;
      }
      var seed := if q.seed.Some? then q.seed.value else env.drawnSeed;
      var key := Params(q.softmaxScale, mode, seed, None);
      if backward {
        key := key.(bwdMode := Some(pb.value));
      }
      assert key == RequestKey(backward, pm.value, pb.value, q, env);
      IntendedOutcome(old(Cache()), backward, pm.value, pb.value, q, env);
      if params == Some(key) {
        if computed.None? {
          return Some(AssertionError);
        }
        return None;
      }
      err := Recompute(key, q, env);
    }

    /**
     * The tail of `compute_transition_matrix` after a cache miss: switches
     * Monte Carlo with one sample to sampling, estimates the softmax scale
     * when none is given, runs, and stores the final key with its result, or
     * raises and stores nothing.
     */
    method Recompute(key: Params, q: Request, env: Env) returns (err: Option<ExcType>)
      requires key.softmaxScale == q.softmaxScale
      modifies this
      ensures var estimateFails := q.softmaxScale.None? && env.estimateError.Some?;
              var final := if q.softmaxScale.None? then key.(softmaxScale := Some(env.estimatedScale)) else key;
              && (estimateFails ==> err == env.estimateError)
              && (!estimateFails ==> err == env.runError)
              && (err.Some? ==> params == old(params) && computed == old(computed))
              && (err.None? ==> params == Some(final) && computed == Some(RunResult(final, q, env, final.softmaxScale.value, false)))
      ensures velocity == old(velocity) && expression == old(expression) && velocityParams == old(velocityParams)
    {
      var mode := key.mode;
      if mode == MonteCarlo && q.nSamples == 1 {
        mode := Sampling;
      }
      var backend := ResolveBackend(env.pyMajor, env.pyMinor, mode, q.backend);
      var final := key;
      var scale: real;
      if q.softmaxScale.None? {
        if env.estimateError.Some? {
          return env.estimateError;
        }
        scale := env.estimatedScale;
        final := key.(softmaxScale := Some(scale));
      } else {
        scale := q.softmaxScale.value;
      }
      var execution := Dispatch(mode, q.nSamples, q.useNumba, env.hasJax);
      if env.runError.Some? {
        return env.runError;
      }
      assert Computed(final, mode, execution.value, backend, scale, false) == RunResult(final, q, env, scale, false);
      params := Some(final);
      computed := Some(Computed(final, mode, execution.value, backend, scale, false));
      return None;
    }
  }
}
