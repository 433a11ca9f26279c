/** The part of Python's built-in exception hierarchy the model raises or catches. */
module Exceptions {

  /** The built-in Python exception classes the model refers to. */
  datatype ExcType =
    | BaseException
    | Exception | KeyboardInterrupt | SystemExit | GeneratorExit
    | LookupError | ValueError | RuntimeError | AssertionError | TypeError | ArithmeticError
    | KeyError | IndexError | ZeroDivisionError

  /** Distance from `BaseException` in Python's class hierarchy. */
  function Depth(t: ExcType): nat {
    match t
    case BaseException => 0
    case Exception | KeyboardInterrupt | SystemExit | GeneratorExit => 1
    case LookupError | ValueError | RuntimeError | AssertionError | TypeError | ArithmeticError => 2
    case KeyError | IndexError | ZeroDivisionError => 3
  }

  /** The direct base class of every exception class but `BaseException`. */
  function Parent(t: ExcType): (p: ExcType)
    requires t != BaseException
    ensures Depth(p) + 1 == Depth(t)
  {
    match t
    case Exception | KeyboardInterrupt | SystemExit | GeneratorExit => BaseException
    case LookupError | ValueError | RuntimeError | AssertionError | TypeError | ArithmeticError => Exception
    case KeyError | IndexError => LookupError
    case ZeroDivisionError => ArithmeticError
  }

  /** `issubclass(t, u)`: `u` is `t` or one of its ancestors. */
  predicate IsSubclass(t: ExcType, u: ExcType)
    decreases Depth(t)
  {
    t == u || (t != BaseException && IsSubclass(Parent(t), u))
  }

  /** Every exception class derives from `BaseException`, and a subclass is never shallower than its base. */
  lemma {:induction false} SubclassDepth(t: ExcType, u: ExcType)
    ensures IsSubclass(t, BaseException)
    ensures IsSubclass(t, u) ==> Depth(u) <= Depth(t)
    ensures IsSubclass(t, u) && Depth(u) == Depth(t) ==> t == u
    decreases Depth(t)
  {
    if t != BaseException {
      SubclassDepth(Parent(t), u);
    }
  }
}
