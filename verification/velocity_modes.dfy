/**
 * The velocity kernel's modes and the rules `compute_transition_matrix` uses
 * to settle which mode and which parallel backend a computation really runs
 * with.
 */
module VelocityModes {
  import opened Wrappers
  import opened Exceptions

  /** `VelocityMode`. */
  datatype Mode = Deterministic | Stochastic | Sampling | MonteCarlo | Propagation

  /** `BackwardMode`. */
  datatype BackwardMode = Transpose | Negate

  /** The string value of each mode. */
  function ModeName(m: Mode): string {
    match m
    case Deterministic => "deterministic"
    case Stochastic => "stochastic"
    case Sampling => "sampling"
    case MonteCarlo => "monte_carlo"
    case Propagation => "propagation"
  }

  /** `VelocityMode(s)`: the mode whose value is `s`, else a `ValueError`. */
  function ParseMode(s: string): (r: Result<Mode, ExcType>)
    ensures r.Success? ==> ModeName(r.value) == s
    ensures r.Failure? ==> r.error == ValueError && forall m: Mode :: ModeName(m) != s
  {
    if s == "deterministic" then Success(Deterministic)
    else if s == "stochastic" then Success(Stochastic)
    else if s == "sampling" then Success(Sampling)
    else if s == "monte_carlo" then Success(MonteCarlo)
    else if s == "propagation" then Success(Propagation)
    else Failure(ValueError)
  }

  /** Every mode parses back from its own value. */
  lemma {:induction false} ParseModeName(m: Mode)
    ensures ParseMode(ModeName(m)) == Success(m)
  {
  }

  function BackwardModeName(b: BackwardMode): string {
    match b
    case Transpose => "transpose"
    case Negate => "negate"
  }

  /** `BackwardMode(s)`: the backward mode whose value is `s`, else a `ValueError`. */
  function ParseBackwardMode(s: string): (r: Result<BackwardMode, ExcType>)
    ensures r.Success? ==> BackwardModeName(r.value) == s
    ensures r.Failure? ==> r.error == ValueError && forall b: BackwardMode :: BackwardModeName(b) != s
  {
    if s == "transpose" then Success(Transpose)
    else if s == "negate" then Success(Negate)
    else Failure(ValueError)
  }

  lemma {:induction false} ParseBackwardModeName(b: BackwardMode)
    ensures ParseBackwardMode(BackwardModeName(b)) == Success(b)
  {
  }

  /**
   * The mode recorded in the cache key: a backward kernel only supports the
   * deterministic mode, and the stochastic mode falls back to Monte Carlo
   * when JAX is missing.
   */
  function EffectiveMode(requested: Mode, backward: bool, hasJax: bool): (m: Mode)
    ensures backward ==> m == Deterministic
    ensures m == Stochastic ==> hasJax
  {
    var m1 := if backward && requested != Deterministic then Deterministic else requested;
    if m1 == Stochastic && !hasJax then MonteCarlo else m1
  }

  /** The mode actually executed: Monte Carlo with a single sample runs as sampling. */
  function ExecutedMode(m: Mode, nSamples: int): (e: Mode)
    ensures e == Sampling ==> m == Sampling || m == MonteCarlo
  {
    if m == MonteCarlo && nSamples == 1 then Sampling else m
  }

  /** A forward request is honoured except for the two fall-backs. */
  lemma {:induction false} ExecutedModeOfRequest(requested: Mode, backward: bool, hasJax: bool, nSamples: int)
    ensures var e := ExecutedMode(EffectiveMode(requested, backward, hasJax), nSamples);
      && (backward ==> e == Deterministic)
      && (e == Stochastic <==> !backward && hasJax && requested == Stochastic)
      && (e == Sampling <==> !backward && (requested == Sampling
                                           || (nSamples == 1 && (requested == MonteCarlo || (requested == Stochastic && !hasJax)))))
      && (!backward && requested != Stochastic && requested != MonteCarlo ==> e == requested)
  {
    var m1 := if backward && requested != Deterministic then Deterministic else requested;
    assert EffectiveMode(requested, backward, hasJax) == if m1 == Stochastic && !hasJax then MonteCarlo else m1;
  }

  /** `_DEFAULT_BACKEND` (its definition file is not part of this model). */
  const DefaultBackend: string := "loky"

  /** `version_info[:2] <= (3, 6)`, compared as tuples. */
  predicate AtMostPython36(major: nat, minor: nat) {
    major < 3 || (major == 3 && minor <= 6)
  }

  /**
   * The parallel backend: Python 3.6 and older always use threads; otherwise
   * a multiprocessing request is only honoured in the stochastic mode, and
   * any other request (or the default) is kept.
   */
  function ResolveBackend(major: nat, minor: nat, mode: Mode, requested: Option<string>): (b: string)
    ensures AtMostPython36(major, minor) ==> b == "threading"
    ensures !AtMostPython36(major, minor) && requested.GetOr(DefaultBackend) != "multiprocessing"
            ==> b == requested.GetOr(DefaultBackend)
    ensures !AtMostPython36(major, minor) && requested.GetOr(DefaultBackend) == "multiprocessing"
            ==> b == (if mode == Stochastic then "multiprocessing" else DefaultBackend)
  {
    var backend := requested.GetOr(DefaultBackend);
    if AtMostPython36(major, minor) then "threading"
    else if mode != Stochastic && backend == "multiprocessing" then DefaultBackend
    else backend
  }

  /** The multiprocessing backend is only ever used for the stochastic mode, and never on Python 3.6. */
  lemma {:induction false} MultiprocessingOnlyStochastic(major: nat, minor: nat, mode: Mode, requested: Option<string>)
    requires ResolveBackend(major, minor, mode, requested) == "multiprocessing"
    ensures mode == Stochastic && !AtMostPython36(major, minor) && requested == Some("multiprocessing")
  {
  }
}
