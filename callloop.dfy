/**
 * The hook call loop (`_MultiCall.execute` in pluggy/callers.py).
 *
 * Hook implementations are data: a plain implementation is a function from its
 * bound arguments to what the call does; a hook wrapper is a generator whose
 * run up to the first `yield` is a function from its bound arguments to a
 * `SetupStep`, and whose suspended continuation is a function from the shared
 * outcome to a `TeardownStep`. The functions `State`, `Unwind` and `HookCall`
 * say what one call does; the method `MultiCall.Execute` is the loop itself,
 * proved to agree with them.
 */
module CallLoop {
  import opened Wrappers
  import opened Outcomes

  /** What resuming a suspended wrapper with the outcome does. */
  datatype TeardownStep<V, E> =
    | Finish(forced: Option<Value<V>>)   // ran to its end, after a `force_result(v)` when `forced == Some(v)`
    | YieldAgain                         // reached a second `yield`
    | TeardownRaise(exc: HookError<E>)   // raised, by itself or by re-raising through `get_result`

  /** A wrapper's continuation, suspended at its first `yield`. */
  type Resume<!V, !E> = OutcomeState<V, E> -> TeardownStep<V, E>

  /** What calling a wrapper and advancing it to its first `yield` does. */
  datatype SetupStep<!V, !E> =
    | Yielded(resume: Resume<V, E>)      // suspended at the first `yield`
    | Stopped                            // finished without yielding
    | SetupRaise(exc: HookError<E>)      // raised before yielding

  datatype ImplKind<!V, !E> =
    | Plain(call: seq<V> -> Completion<Option<V>, HookError<E>>)
    | HookWrapper(setup: seq<V> -> SetupStep<V, E>)

  /** One registered implementation: its name, the argument names it requires, what it does. */
  datatype HookImpl<!V, !E> = HookImpl(name: string, argnames: seq<string>, kind: ImplKind<V, E>)

  /** A teardown queued in `teardowns`: the position of its wrapper, the wrapper's name, its continuation. */
  datatype Pending<!V, !E> = Pending(index: nat, name: string, resume: Resume<V, E>)

  /**
   * The arguments of an implementation, looked up by name in the caller's
   * keyword arguments, or the first of its argument names that is missing.
   */
  function Bind<V>(argnames: seq<string>, kwargs: map<string, V>): (r: Result<seq<V>, string>)
    ensures r.Ok? <==> forall k :: 0 <= k < |argnames| ==> argnames[k] in kwargs
    ensures r.Ok? ==> |r.value| == |argnames|
    ensures r.Ok? ==> forall k :: 0 <= k < |argnames| ==> argnames[k] in kwargs && r.value[k] == kwargs[argnames[k]]
    ensures r.Err? ==> exists k :: 0 <= k < |argnames| && argnames[k] == r.error && MissingFirstAt(argnames, kwargs, k)
  {
    if argnames == [] then Ok([])
    else if argnames[0] !in kwargs then
      assert MissingFirstAt(argnames, kwargs, 0);
      Err(argnames[0])
    else
      match Bind(argnames[1..], kwargs)
      case Ok(rest) => Ok([kwargs[argnames[0]]] + rest)
      case Err(name) =>
        ghost var k :| 0 <= k < |argnames[1..]| && argnames[1..][k] == name && MissingFirstAt(argnames[1..], kwargs, k);
        assert MissingFirstAt(argnames, kwargs, k + 1);
        Err(name)
  }

  /** `argnames[k]` is missing from `kwargs` and every name before it is present. */
  ghost predicate MissingFirstAt<V>(argnames: seq<string>, kwargs: map<string, V>, k: nat)
  {
    k < |argnames| && argnames[k] !in kwargs && forall j :: 0 <= j < k ==> argnames[j] in kwargs
  }

  /**
   * The argument binding of the loop body: the list comprehension over
   * `argnames`, and on a `KeyError` the search for the first missing name.
   */
  method BindArgs<V>(argnames: seq<string>, kwargs: map<string, V>) returns (r: Result<seq<V>, string>)
    ensures r == Bind(argnames, kwargs)
  {
    var args: seq<V> := [];
    var k := 0;
    while k < |argnames|
      invariant 0 <= k <= |argnames|
      invariant |args| == k
      invariant forall j :: 0 <= j < k ==> argnames[j] in kwargs && args[j] == kwargs[argnames[j]]
    {
      if argnames[k] !in kwargs {
        r := Err(argnames[k]);
        assert MissingFirstAt(argnames, kwargs, k);
        FirstMissingUnique(argnames, kwargs, k, Bind(argnames, kwargs).error);
        return;
      }
      args := args + [kwargs[argnames[k]]];
      k := k + 1;
    }
    assert Bind(argnames, kwargs).value == args;
    r := Ok(args);
  }

  /** The first missing name is unique, so `Bind`'s error is determined by its contract. */
  lemma FirstMissingUnique<V>(argnames: seq<string>, kwargs: map<string, V>, k: nat, name: string)
    requires MissingFirstAt(argnames, kwargs, k)
    requires Bind(argnames, kwargs) == Err(name)
    ensures name == argnames[k]
  {
    var k' :| 0 <= k' < |argnames| && argnames[k'] == name && MissingFirstAt(argnames, kwargs, k');
    assert !(k < k') && !(k' < k);
  }

  /** What processing one implementation does to the traversal. */
  datatype Effect<!V, !E> =
    | Returned(res: Option<V>)                 // a plain implementation returned `res`
    | Queued(resume: Resume<V, E>)             // a wrapper yielded; its teardown is queued
    | Failed(error: HookError<E>, called: bool) // an exception, raised before the implementation was called when `!called`

  /** One pass of the loop body of pluggy/callers.py:91-113 on `impl`. */
  function EffectOf<V, E>(impl: HookImpl<V, E>, kwargs: map<string, V>): Effect<V, E>
  {
    match Bind(impl.argnames, kwargs)
    case Err(name) => Failed(HookCallError(name), false)
    case Ok(args) =>
      match impl.kind
      case HookWrapper(setup) =>
        (match setup(args)
         case Yielded(resume) => Queued(resume)
         case Stopped => Failed(WrapFail(impl.name, DidNotYield), true)
         case SetupRaise(e) => Failed(e, true))
      case Plain(call) =>
        (match call(args)
         case Return(res) => Returned(res)
         case Raise(e) => Failed(e, true))
  }

  /**
   * The local state of the traversal: `results`, `teardowns`, `excinfo`, and
   * `invoked`, the positions of the implementations called so far, in call order
   * (it records what the source does not store, for stating properties).
   */
  datatype Traversal<!V, !E> = Traversal(
    results: seq<V>,
    teardowns: seq<Pending<V, E>>,
    excinfo: Option<HookError<E>>,
    invoked: seq<nat>)

  /** Nothing collected, nothing queued, nothing caught, nothing called. */
  function Start<V, E>(): Traversal<V, E>
  {
    Traversal([], [], None, [])
  }

  /** The traversal has left the loop: an exception was caught, or a firstresult hook got its value. */
  predicate Halted<V, E>(t: Traversal<V, E>, firstresult: bool)
  {
    t.excinfo.Some? || (firstresult && t.results != [])
  }

  function Step<V, E>(t: Traversal<V, E>, i: nat, impl: HookImpl<V, E>, kwargs: map<string, V>): Traversal<V, E>
  {
    match EffectOf(impl, kwargs)
    case Returned(res) =>
      t.(results := if res.Some? then t.results + [res.value] else t.results, invoked := t.invoked + [i])
    case Queued(resume) =>
      t.(teardowns := t.teardowns + [Pending(i, impl.name, resume)], invoked := t.invoked + [i])
    case Failed(error, called) =>
      t.(excinfo := Some(error), invoked := if called then t.invoked + [i] else t.invoked)
  }

  /**
   * The traversal state once the loop over `reversed(hook_impls)` has reached
   * position `i`: positions `|impls| - 1` down to `i` are processed, unless
   * the loop stopped earlier.
   */
  function State<V, E>(impls: seq<HookImpl<V, E>>, kwargs: map<string, V>, firstresult: bool, i: nat): Traversal<V, E>
    requires i <= |impls|
    decreases |impls| - i
  {
    if i == |impls| then Start()
    else
      var t := State(impls, kwargs, firstresult, i + 1);
      if Halted(t, firstresult) then t else Step(t, i, impls[i], kwargs)
  }

  /** The traversal state when the loop is over. */
  function Traversed<V, E>(impls: seq<HookImpl<V, E>>, kwargs: map<string, V>, firstresult: bool): Traversal<V, E>
  {
    State(impls, kwargs, firstresult, 0)
  }

  /** The outcome built in the `finally` block, before any teardown runs. */
  function Initial<V, E>(t: Traversal<V, E>, firstresult: bool): OutcomeState<V, E>
  {
    if firstresult then OutcomeState(Single(if t.results != [] then Some(t.results[0]) else None), t.excinfo)
    else OutcomeState(Many(t.results), t.excinfo)
  }

  /**
   * What running the queued teardowns gives: the final outcome, or the
   * exception that escaped from a teardown; and the positions of the wrappers
   * resumed, in order.
   */
  datatype Unwound<!V, !E> = Unwound(outcome: Result<OutcomeState<V, E>, HookError<E>>, resumed: seq<nat>)

  /** The loop over `reversed(teardowns)`, each teardown resumed with the outcome as the ones before it left it. */
  function Unwind<V, E>(pending: seq<Pending<V, E>>, o: OutcomeState<V, E>): Unwound<V, E>
    decreases |pending|
  {
    if pending == [] then Unwound(Ok(o), [])
    else
      var p := pending[|pending| - 1];
      match p.resume(o)
      case Finish(forced) => Then([p.index], Unwind(pending[..|pending| - 1], Finished(o, forced)))
      case YieldAgain => Unwound(Err(WrapFail(p.name, SecondYield)), [p.index])
      case TeardownRaise(e) => Unwound(Err(e), [p.index])
  }

  /** What the teardown phase gives for a finished traversal. */
  function Unwinding<V, E>(impls: seq<HookImpl<V, E>>, kwargs: map<string, V>, firstresult: bool): Unwound<V, E>
  {
    var t := Traversed(impls, kwargs, firstresult);
    Unwind(t.teardowns, Initial(t, firstresult))
  }

  /** The outcome after a teardown that ran to its end, forcing `forced` if it is a value. */
  function Finished<V, E>(o: OutcomeState<V, E>, forced: Option<Value<V>>): OutcomeState<V, E>
  {
    if forced.Some? then Forced(o, forced.value) else o
  }

  /** `u`, preceded by the teardowns resumed before it. */
  function Then<V, E>(resumed: seq<nat>, u: Unwound<V, E>): Unwound<V, E>
  {
    Unwound(u.outcome, resumed + u.resumed)
  }

  /** What `execute` gives back once the teardowns have run: an escaped exception, or `get_result`. */
  function Finale<V, E>(u: Unwound<V, E>): Result<Value<V>, HookError<E>>
  {
    match u.outcome
    case Err(e) => Err(e)
    case Ok(o) => ResultOf(o)
  }

  /** Unwinding the first `j` queued teardowns starts with the `j`-th. */
  lemma UnwindLast<V, E>(pending: seq<Pending<V, E>>, j: nat, o: OutcomeState<V, E>)
    requires 0 < j <= |pending|
    ensures pending[j - 1].resume(o).Finish? ==>
      Unwind(pending[..j], o) == Then([pending[j - 1].index], Unwind(pending[..j - 1], Finished(o, pending[j - 1].resume(o).forced)))
    ensures pending[j - 1].resume(o).YieldAgain? ==>
      Unwind(pending[..j], o) == Unwound(Err(WrapFail(pending[j - 1].name, SecondYield)), [pending[j - 1].index])
    ensures pending[j - 1].resume(o).TeardownRaise? ==>
      Unwind(pending[..j], o) == Unwound(Err(pending[j - 1].resume(o).exc), [pending[j - 1].index])
  {
    assert pending[..j][..j - 1] == pending[..j - 1];
  }

  /** What `execute` returns or raises. */
  function HookCall<V, E>(impls: seq<HookImpl<V, E>>, kwargs: map<string, V>, firstresult: bool): Result<Value<V>, HookError<E>>
  {
    Finale(Unwinding(impls, kwargs, firstresult))
  }

  /** A stopped traversal stays as it is for the rest of the positions. */
  lemma HaltedIsFinal<V, E>(impls: seq<HookImpl<V, E>>, kwargs: map<string, V>, firstresult: bool, i: nat)
    requires i <= |impls|
    requires Halted(State(impls, kwargs, firstresult, i), firstresult)
    ensures Traversed(impls, kwargs, firstresult) == State(impls, kwargs, firstresult, i)
    decreases i
  {
    if i > 0 {
      HaltedIsFinal(impls, kwargs, firstresult, i - 1);
    }
  }

  /** One call of a hook (`_MultiCall`): the registered implementations, the caller's keyword arguments, the firstresult option. */
  class MultiCall<V, E> {
    const hookImpls: seq<HookImpl<V, E>>
    const callerKwargs: map<string, V>
    const firstresult: bool

    constructor (hookImpls: seq<HookImpl<V, E>>, kwargs: map<string, V>, firstresult: bool)
      ensures this.hookImpls == hookImpls && this.callerKwargs == kwargs && this.firstresult == firstresult
    {
      this.hookImpls := hookImpls;
      this.callerKwargs := kwargs;
      this.firstresult := firstresult;
    }

    /** `execute`: run the implementations last-registered first, then the queued teardowns, then `get_result`. */
    method Execute() returns (r: Result<Value<V>, HookError<E>>)
      ensures r == HookCall(hookImpls, callerKwargs, firstresult)
    {
      var results, teardowns, excinfo := CallImplementations();
      var outcome: Outcome<V, E>;
      if firstresult {
        outcome := new Outcome(Single(if results != [] then Some(results[0]) else None), excinfo);
      } else {
        outcome := new Outcome(Many(results), excinfo);
      }
      assert HookCall(hookImpls, callerKwargs, firstresult) == Finale(Unwind(teardowns, outcome.State()));
      r := RunTeardowns(teardowns, outcome);
    }

    /**
     * The `for hook_impl in reversed(self.hook_impls)` loop of `execute` with
     * its `except BaseException`: what it leaves in `results`, `teardowns`
     * and `excinfo`.
     */
    method CallImplementations() returns (results: seq<V>, teardowns: seq<Pending<V, E>>, excinfo: Option<HookError<E>>)
      ensures results == Traversed(hookImpls, callerKwargs, firstresult).results
      ensures teardowns == Traversed(hookImpls, callerKwargs, firstresult).teardowns
      ensures excinfo == Traversed(hookImpls, callerKwargs, firstresult).excinfo
    {
      results := [];
      teardowns := [];
      excinfo := None;
      ghost var invoked: seq<nat> := [];
      var i := |hookImpls|;
      while i > 0
        invariant 0 <= i <= |hookImpls|
        invariant Traversal(results, teardowns, excinfo, invoked) == State(hookImpls, callerKwargs, firstresult, i)
        invariant !Halted(State(hookImpls, callerKwargs, firstresult, i), firstresult)
      {
        i := i - 1;
        var hookImpl := hookImpls[i];
        ghost var before := Traversal(results, teardowns, excinfo, invoked);
        assert State(hookImpls, callerKwargs, firstresult, i) == Step(before, i, hookImpl, callerKwargs);
        var bound := BindArgs(hookImpl.argnames, callerKwargs);
        if bound.Err? {
          excinfo := Some(HookCallError(bound.error));
          break;
        }
        var args := bound.value;
        match hookImpl.kind {
          case HookWrapper(setup) =>
            invoked := invoked + [i];
            match setup(args) {
              case Yielded(resume) =>
                teardowns := teardowns + [Pending(i, hookImpl.name, resume)];
              case Stopped =>
                excinfo := Some(WrapFail(hookImpl.name, DidNotYield));
                break;
              case SetupRaise(e) =>
                excinfo := Some(e);
                break;
            }
          case Plain(call) =>
            invoked := invoked + [i];
            match call(args) {
              case Return(res) =>
                if res.Some? {
                  results := results + [res.value];
                  if firstresult {
                    break;
                  }
                }
              case Raise(e) =>
                excinfo := Some(e);
                break;
            }
        }
      }
      ghost var t := Traversal(results, teardowns, excinfo, invoked);
      if i > 0 {
        HaltedIsFinal(hookImpls, callerKwargs, firstresult, i);
      }
      assert t == Traversed(hookImpls, callerKwargs, firstresult);
    }
  }

  /**
   * The `for gen in reversed(teardowns)` loop of `execute` and its closing
   * `get_result()`: each queued wrapper is resumed with the shared outcome;
   * a second `yield` or a teardown's own exception leaves at once.
   */
  method RunTeardowns<V, E>(teardowns: seq<Pending<V, E>>, outcome: Outcome<V, E>) returns (r: Result<Value<V>, HookError<E>>)
    modifies outcome
    ensures r == Finale(Unwind(teardowns, old(outcome.State())))
    ensures Unwind(teardowns, old(outcome.State())).outcome.Ok? ==>
      outcome.State() == Unwind(teardowns, old(outcome.State())).outcome.value
  {
    ghost var goal := Unwind(teardowns, outcome.State());
    ghost var resumed: seq<nat> := [];
    var j := |teardowns|;
    assert teardowns[..j] == teardowns;
    while j > 0
      invariant 0 <= j <= |teardowns|
      invariant goal == Then(resumed, Unwind(teardowns[..j], outcome.State()))
    {
      var gen := teardowns[j - 1];
      UnwindLast(teardowns, j, outcome.State());
      match gen.resume(outcome.State()) {
        case Finish(forced) =>
          if forced.Some? {
            outcome.ForceResult(forced.value);
          }
        case YieldAgain =>
          r := Err(WrapFail(gen.name, SecondYield));
          return;
        case TeardownRaise(e) =>
          r := Err(e);
          return;
      }
      resumed := resumed + [gen.index];
      j := j - 1;
    }
    r := outcome.GetResult();
  }
}
