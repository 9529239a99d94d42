/**
 * The outcome container of one hook call (`_Result` in pluggy/callers.py):
 * a result, plus the exception captured while computing it, if any.
 */
module Outcomes {
  import opened Wrappers

  /** Which rule of the one-yield protocol of a hook wrapper was broken. */
  datatype WrapFailKind = DidNotYield | SecondYield

  /**
   * Every exception that can sit in an outcome or leave the call loop.
   * `HookCallError` is the class of that name (a required argument is missing);
   * `WrapFail` is the `RuntimeError` that `_raise_wrapfail` raises, reduced to
   * the wrapper's name and the broken rule; `Raised` is any other exception,
   * kept as an opaque value. An implementation or a teardown may raise any of
   * the three: a teardown that calls `get_result` re-raises whatever the
   * outcome holds.
   */
  datatype HookError<E> =
    | HookCallError(argname: string)
    | WrapFail(wrapper: string, kind: WrapFailKind)
    | Raised(exc: E)

  /**
   * What `_result` holds: a single value (possibly `None`) for a firstresult
   * hook, the list of collected results otherwise.
   */
  datatype Value<V> = Single(item: Option<V>) | Many(items: seq<V>)

  /** The two fields of an outcome, as a value: what a teardown observes. */
  datatype OutcomeState<V, E> = OutcomeState(result: Value<V>, excinfo: Option<HookError<E>>)

  /** What calling a procedure does: it returns a value or raises. */
  datatype Completion<T, X> = Return(value: T) | Raise(exc: X)

  /** The state `from_call` builds from what its callable did. */
  function Captured<V, E>(c: Completion<Value<V>, HookError<E>>): (o: OutcomeState<V, E>)
    ensures o.excinfo.None? <==> c.Return?
  {
    match c
    case Return(v) => OutcomeState(v, None)
    case Raise(x) => OutcomeState(Single(None), Some(x))
  }

  /** The state after `force_result(v)`. */
  function Forced<V, E>(o: OutcomeState<V, E>, v: Value<V>): (o': OutcomeState<V, E>)
    ensures o'.excinfo.None?
    ensures ResultOf(o') == Ok(v)
  {
    OutcomeState(v, None)
  }

  /** What `get_result` gives back: the result, or the captured exception re-raised. */
  function ResultOf<V, E>(o: OutcomeState<V, E>): Result<Value<V>, HookError<E>>
  {
    if o.excinfo.None? then Ok(o.result) else Err(o.excinfo.value)
  }

  /** `get_result` after `from_call` reproduces exactly what the callable did. */
  lemma FromCallRoundTrip<V, E>(c: Completion<Value<V>, HookError<E>>)
    ensures c.Return? ==> ResultOf(Captured(c)) == Ok(c.value)
    ensures c.Raise? ==> ResultOf(Captured(c)) == Err(c.exc) && Captured(c).result == Single(None)
  {
  }

  /** The mutable outcome object that a hook call shares with its wrappers. */
  class Outcome<V, E> {
    var result: Value<V>
    var excinfo: Option<HookError<E>>

    /** Both fields, as a value. */
    function State(): OutcomeState<V, E>
      reads this
    {
      OutcomeState(result, excinfo)
    }

    constructor (result: Value<V>, excinfo: Option<HookError<E>>)
      ensures State() == OutcomeState(result, excinfo)
    {
      this.result := result;
      this.excinfo := excinfo;
    }

    /** The `excinfo` property: the exception `GetResult` would raise, if any. */
    function Excinfo(): (e: Option<HookError<E>>)
      reads this
      ensures e.None? <==> ResultOf(State()).Ok?
      ensures e.Some? ==> ResultOf(State()) == Err(e.value)
    {
      excinfo
    }

    /** `from_call`: run `func` and capture its return value or any exception it raises. */
    static method FromCall(func: () -> Completion<Value<V>, HookError<E>>) returns (o: Outcome<V, E>)
      ensures fresh(o)
      ensures o.State() == Captured(func())
    {
      var result: Value<V> := Single(None);
      var excinfo: Option<HookError<E>> := None;
      match func() {
        case Return(v) => result := v;
        case Raise(x) => excinfo := Some(x);
      }
      o := new Outcome(result, excinfo);
    }

    /** `force_result`: overwrite the result and delete any captured exception. */
    method ForceResult(v: Value<V>)
      modifies this
      ensures State() == Forced(old(State()), v)
    {
      result := v;
      excinfo := None;
    }

    /**
     * `get_result`: the result when no exception is captured, the captured
     * exception otherwise. It changes nothing (no modifies clause), so two
     * calls with nothing in between give the same answer.
     */
    method GetResult() returns (r: Result<Value<V>, HookError<E>>)
      ensures r.Ok? <==> excinfo.None?
      ensures r.Ok? ==> r.value == result
      ensures r.Err? ==> Some(r.error) == excinfo
      ensures r == ResultOf(State())
    {
      if excinfo.None? {
        r := Ok(result);
      } else {
        r := Err(excinfo.value);
      }
    }
  }
}
