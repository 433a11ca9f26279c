/**
 * The estimator mixin helpers: the `SafeGetter` rollback context manager, the
 * `StatesHolder` record and its `set`, and the `logger` and `shadow` method
 * decorators.
 */
module EstimatorUtils {
  import opened Wrappers
  import opened Exceptions

  // ---------------------------------------------------------------------------
  // Python values

  /**
   * The attribute and keyword values the helpers pass around; only their
   * truthiness matters. `PyOther` is any other object (a list, a dict, a
   * tuple, an array, an instance), with what its `__bool__` or `__len__`
   * makes `bool` of it: an empty container is false.
   */
  datatype PyValue = PyNone | PyBool(b: bool) | PyInt(i: int) | PyFloat(r: real) | PyStr(s: string)
                   | PyOther(id: nat, truthy: bool)

  /**
   * Python's `bool(v)`: `None`, `False`, `0`, `0.0` and the empty string are
   * false; any other object is as its `__bool__` or `__len__` makes it.
   */
  predicate Truthy(v: PyValue) {
    match v
    case PyNone => false
    case PyBool(b) => b
    case PyInt(i) => i != 0
    case PyFloat(r) => r != 0.0
    case PyStr(s) => s != ""
    case PyOther(_, b) => b
  }

  /** The outcome of calling a wrapped method: the message it returned, or the class of what it raised. */
  datatype Outcome = Returned(msg: string) | Raised(exc: ExcType)

  // ---------------------------------------------------------------------------
  // StatesHolder

  /** `StatesHolder`: a named tuple of four fields, each `None` unless given. */
  datatype StatesHolder = StatesHolder(assignment: PyValue, probs: PyValue, colors: PyValue, memberships: PyValue)

  /** `StatesHolder()`. */
  const EmptyHolder: StatesHolder := StatesHolder(PyNone, PyNone, PyNone, PyNone)

  const FieldNames: set<string> := {"assignment", "probs", "colors", "memberships"}

  /** `getattr(h, name)` for one of the four field names. */
  function Field(h: StatesHolder, name: string): PyValue
    requires name in FieldNames
  {
    if name == "assignment" then h.assignment
    else if name == "probs" then h.probs
    else if name == "colors" then h.colors
    else h.memberships
  }

  /** Every field of `StatesHolder()` is `None`. */
  lemma {:induction false} EmptyHolderFields(name: string)
    requires name in FieldNames
    ensures Field(EmptyHolder, name) == PyNone
  {
  }

  /**
   * `set(**kw)`, i.e. `_replace(**kw)`: a `ValueError` when a keyword is not a
   * field name, otherwise a new holder in which the named fields take the
   * given values and the others keep theirs. The receiver is a value and
   * stays as it was.
   */
  function Set(h: StatesHolder, kw: map<string, PyValue>): (r: Result<StatesHolder, ExcType>)
    ensures r.Failure? <==> !(kw.Keys <= FieldNames)
    ensures r.Failure? ==> r.error == ValueError
    ensures r.Success? ==> forall name :: name in FieldNames ==>
              Field(r.value, name) == if name in kw then kw[name] else Field(h, name)
  {
    if !(kw.Keys <= FieldNames) then Failure(ValueError)
    else
      var pick := (name: string) requires name in FieldNames => if name in kw then kw[name] else Field(h, name);
      Success(StatesHolder(pick("assignment"), pick("probs"), pick("colors"), pick("memberships")))
  }

  /** Two holders with the same four fields are the same holder. */
  lemma {:induction false} FieldsDetermineHolder(a: StatesHolder, b: StatesHolder)
    requires forall name :: name in FieldNames ==> Field(a, name) == Field(b, name)
    ensures a == b
  {
    assert Field(a, "assignment") == Field(b, "assignment");
    assert Field(a, "probs") == Field(b, "probs");
    assert Field(a, "colors") == Field(b, "colors");
    assert Field(a, "memberships") == Field(b, "memberships");
  }

  /** `h.set()` with no keyword gives back an equal holder. */
  lemma {:induction false} SetNothing(h: StatesHolder)
    ensures Set(h, map[]) == Success(h)
  {
    FieldsDetermineHolder(Set(h, map[]).value, h);
  }

  /** `h.set(**a).set(**b)` is `h.set(**a, **b)` with `b` winning on shared names. */
  lemma {:induction false} SetTwice(h: StatesHolder, a: map<string, PyValue>, b: map<string, PyValue>)
    requires a.Keys <= FieldNames && b.Keys <= FieldNames
    ensures Set(h, a).Success? && Set(Set(h, a).value, b) == Set(h, a + b)
  {
    FieldsDetermineHolder(Set(Set(h, a).value, b).value, Set(h, a + b).value);
  }

  // ---------------------------------------------------------------------------
  // logger and shadow

  /** What a decorated call did besides returning: the messages sent to `logg.info` and `logg.error`. */
  datatype LogRecord = Info(msg: string, time: PyValue) | Error(reason: ExcType)

  datatype Trace = Trace(result: Outcome, log: seq<LogRecord>)

  /**
   * The `logger` decorator: pops `log` (default `True`) and `time` (default
   * `None`) from the keywords, calls the method with the rest, and sends the
   * returned message to `logg.info` when `log` is truthy. An exception of the
   * method propagates and nothing is logged.
   */
  function Logger(wrapped: map<string, PyValue> -> Outcome, kwargs: map<string, PyValue>): (t: Trace)
    ensures t.result == wrapped(kwargs - {"log", "time"})
    ensures t.log != [] <==> t.result.Returned? && ("log" !in kwargs || Truthy(kwargs["log"]))
    ensures t.log != [] ==>
              t.log == [Info(t.result.msg, if "time" in kwargs then kwargs["time"] else PyNone)]
  {
    var log := if "log" in kwargs then kwargs["log"] else PyBool(true);
    var time := if "time" in kwargs then kwargs["time"] else PyNone;
    var msg := wrapped(kwargs - {"log", "time"});
    match msg
    case Raised(_) => Trace(msg, [])
    case Returned(s) => Trace(msg, if Truthy(log) then [Info(s, time)] else [])
  }

  /** Which data set a call of the wrapped method works on: the estimator's own, or its shadow copy. */
  datatype Target = Main | Shadowed

  /** A `shadow`-decorated call: its outcome, the targets it ran on in order, and what it logged. */
  datatype ShadowTrace = ShadowTrace(result: Outcome, calls: seq<Target>, log: seq<LogRecord>)

  /**
   * The `shadow` decorator: calls the method once on the estimator's data; if
   * that raises, the exception propagates and the shadow call never happens.
   * Otherwise it calls the method again inside the shadow context; an
   * `Exception` raised there is logged as an error and swallowed, while any
   * other `BaseException` propagates. When nothing propagates, the result of
   * the first call is returned.
   */
  function Shadow(wrapped: Target -> Outcome): (t: ShadowTrace)
    ensures t.calls == if wrapped(Main).Raised? then [Main] else [Main, Shadowed]
    ensures wrapped(Main).Raised? ==> t.result == wrapped(Main) && t.log == []
    ensures t.result.Returned? ==> t.result == wrapped(Main)
    ensures t.result.Raised? ==>
              t.result == wrapped(Main)
              || (t.result == wrapped(Shadowed) && !IsSubclass(t.result.exc, Exception))
    ensures wrapped(Main).Returned? && wrapped(Shadowed).Raised? && !IsSubclass(wrapped(Shadowed).exc, Exception)
            ==> t.result == wrapped(Shadowed)
    ensures t.log == if wrapped(Main).Returned? && wrapped(Shadowed).Raised? && IsSubclass(wrapped(Shadowed).exc, Exception)
                     then [Error(wrapped(Shadowed).exc)] else []
  {
    var first := wrapped(Main);
    if first.Raised? then ShadowTrace(first, [Main], [])
    else
      var second := wrapped(Shadowed);
      if second.Raised? && IsSubclass(second.exc, Exception) then
        ShadowTrace(first, [Main, Shadowed], [Error(second.exc)])
      else if second.Raised? then
        ShadowTrace(second, [Main, Shadowed], [])
      else
        ShadowTrace(first, [Main, Shadowed], [])
  }

  /**
   * An exception of the first call propagates as it is, whatever the shadow
   * call would have done: the shadow call never runs and nothing is logged.
   */
  lemma {:induction false} ShadowFirstRaisePropagates(wrapped: Target -> Outcome, other: Outcome)
    requires wrapped(Main).Raised?
    ensures Shadow(wrapped) == ShadowTrace(wrapped(Main), [Main], [])
    ensures Shadow(wrapped) == Shadow(t => if t == Main then wrapped(Main) else other)
  {
    var alt := (t: Target) => if t == Main then wrapped(Main) else other;
    assert alt(Main) == wrapped(Main);
  }

  /** Whatever the shadow call returns or raises as an `Exception`, the decorated call behaves as the first call alone. */
  lemma {:induction false} ShadowTransparent(wrapped: Target -> Outcome)
    requires wrapped(Shadowed).Returned? || IsSubclass(wrapped(Shadowed).exc, Exception)
    ensures Shadow(wrapped).result == wrapped(Main)
  {
  }

  /**
   * A `KeyboardInterrupt`, `SystemExit` or `GeneratorExit` in the shadow call
   * is not swallowed, unlike every `Exception`: none of them derives from
   * `Exception`.
   */
  lemma {:induction false} ShadowPropagatesInterrupts(wrapped: Target -> Outcome)
    requires wrapped(Main).Returned?
    requires wrapped(Shadowed) in {Raised(KeyboardInterrupt), Raised(SystemExit), Raised(GeneratorExit)}
    ensures Shadow(wrapped).result == wrapped(Shadowed)
  {
    SubclassDepth(wrapped(Shadowed).exc, Exception);
  }

  // ---------------------------------------------------------------------------
  // SafeGetter

  /** A mutable Python object held by an attribute; `contents` stands for its internal state. */
  class PyObject {
    var contents: int

    constructor(contents: int)
      ensures this.contents == contents
    {
      this.contents := contents;
    }
  }

  /** An object whose attribute dictionary `__dict__` can be read and replaced. */
  class Instance {
    var attrs: map<string, PyObject>

    constructor(attrs: map<string, PyObject>)
      ensures this.attrs == attrs
    {
      this.attrs := attrs;
    }

    /** `setattr(self, name, value)`: binds or rebinds one attribute. */
    method SetAttr(name: string, value: PyObject)
      modifies this
      ensures attrs == old(attrs)[name := value]
    {
      attrs := attrs[name := value];
    }
  }

  /** The one attribute the snapshot deep-copies. */
  const ShadowAdata: string := "_shadow_adata"

  /** `allowed` as passed: a single exception class, or an iterable of them. */
  datatype Allowed = One(t: ExcType) | Many(ts: seq<ExcType>)

  /** `SafeGetter()` without `allowed`: the empty tuple. */
  const NoneAllowed: Allowed := Many([])

  /** The stored `_allowed`: a lone class is wrapped into a one-element tuple, an iterable is kept. */
  function NormalizeAllowed(a: Allowed): (r: seq<ExcType>)
    ensures forall t :: t in r <==> (if a.One? then t == a.t else t in a.ts)
  {
    match a
    case One(t) => [t]
    case Many(ts) => ts
  }

  /**
   * `SafeGetter`: a context manager that takes a shallow snapshot of an
   * object's attributes, deep-copying only `_shadow_adata`, and restores it
   * when the block exits with an exception.
   */
  class SafeGetter {
    /** `_exc_type`: the class of the exception the block exited with, `None` before exit or on success. */
    var excType: Option<ExcType>
    /** `_obj`: the watched object. */
    const obj: Instance
    /** `_allowed`: the exception classes whose escape is suppressed. */
    const allowed: seq<ExcType>
    /** `_dict`: the attributes as they were at construction. */
    const snapshot: map<string, PyObject>

    /** `ok`: no exception has been recorded. */
    predicate Ok()
      reads this
    {
      excType.None?
    }

    constructor(obj: Instance, allowed: Allowed)
      ensures this.obj == obj && this.allowed == NormalizeAllowed(allowed)
      ensures Ok()
      ensures snapshot.Keys == obj.attrs.Keys
      ensures forall k :: k in snapshot && k != ShadowAdata ==> snapshot[k] == obj.attrs[k]
      ensures ShadowAdata in snapshot ==>
                fresh(snapshot[ShadowAdata]) && snapshot[ShadowAdata].contents == obj.attrs[ShadowAdata].contents
    {
      var d := obj.attrs;
      if ShadowAdata in d {
        var copy := new PyObject(d[ShadowAdata].contents);
        d := d[ShadowAdata := copy];
      }
      excType := None;
      this.obj := obj;
      this.allowed := NormalizeAllowed(allowed);
      snapshot := d;
    }

    /** `__enter__`: the manager itself. */
    method Enter() returns (g: SafeGetter)
      ensures g == this
    {
      g := this;
    }

    /**
     * `__exit__`: records the exception class. Without one, the attributes stay
     * as they are and the exit reports success. With one, the object's
     * attributes become the snapshot, and the exception is suppressed exactly
     * when its class is itself listed in `allowed` (a subclass of a listed
     * class is not).
     */
    method Exit(exc: Option<ExcType>) returns (suppress: bool)
      modifies this, obj
      ensures excType == exc
      ensures Ok() <==> exc.None?
      ensures exc.None? ==> suppress && obj.attrs == old(obj.attrs)
      ensures exc.Some? ==> obj.attrs == snapshot && (suppress <==> exc.value in allowed)
    {
      excType := exc;
      if !Ok() {
        obj.attrs := snapshot;
        return excType.value in allowed;
      }
      return true;
    }
  }

  /**
   * A block that fails inside a `SafeGetter` watching an object with a
   * `_shadow_adata` attribute and a second attribute `x`, and allowing
   * `LookupError`. Inside the block, `x` is mutated in place, `_shadow_adata`
   * is mutated in place, and a new attribute `y` is bound; then a `KeyError`
   * escapes. The in-place change to `x` survives, `y` is gone, the shadow data
   * is back to its old contents, `ok` is false, and the `KeyError` is not
   * suppressed although it derives from `LookupError`.
   */
  method RollbackExample() returns (xKept: bool, yDropped: bool, shadowRestored: bool, ok: bool, suppressed: bool)
    ensures xKept && yDropped && shadowRestored
    ensures !ok && !suppressed
  {
    var shadowData := new PyObject(0);
    var x := new PyObject(0);
    var est := new Instance(map[ShadowAdata := shadowData, "x" := x]);
    var getter := new SafeGetter(est, One(LookupError));
    var g := getter.Enter();
    x.contents := 1;
    shadowData.contents := 7;
    var y := new PyObject(2);
    est.SetAttr("y", y);
    suppressed := g.Exit(Some(KeyError));
    xKept := est.attrs["x"].contents == 1;
    yDropped := "y" !in est.attrs;
    shadowRestored := est.attrs[ShadowAdata].contents == 0;
    ok := g.Ok();
  }

  /** A block that completes inside a `SafeGetter` keeps every change made in it, and the exit reports success. */
  method SuccessExample() returns (yKept: bool, ok: bool, suppressed: bool)
    ensures yKept && ok && suppressed
  {
    var est := new Instance(map[]);
    var getter := new SafeGetter(est, NoneAllowed);
    var y := new PyObject(2);
    est.SetAttr("y", y);
    suppressed := getter.Exit(None);
    yKept := "y" in est.attrs && est.attrs["y"] == y;
    ok := getter.Ok();
  }
}
