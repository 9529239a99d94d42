# pluggy's hook call loop, modelled in Dafny

pluggy calls a hook by running every registered implementation of it. That
happens in `pluggy/callers.py`. `_MultiCall.execute` walks the implementations
last-registered first, binds each one's arguments by name from the caller's
keyword arguments, and sets up hook wrappers by advancing them to their first
`yield`. It calls plain implementations and collects their non-`None` results,
stopping at the first one for a `firstresult` hook. Every exception raised in
that implementation loop is caught into a `_Result` outcome. The loop then
resumes the suspended wrappers in the reverse order, handing each the shared
outcome, which a wrapper may overwrite with `force_result`. An exception raised
by a teardown, or the error for a second `yield`, leaves `execute` at once. Last, it returns `get_result()`,
which re-raises any exception still captured.

The model has four modules:

- `Wrappers` (`wrappers.dfy`): `Option`, which stands for Python's `None` or
  an object, and `Result`, which stands for a value or a raised exception.
- `Outcomes` (`outcomes.dfy`): the `_Result` class as `Outcome`, with its two
  mutable fields `result` and `excinfo`. The pure functions `Captured`,
  `Forced` and `ResultOf` give the state that `from_call` builds, the state
  after `force_result`, and what `get_result` gives back. The exceptions are
  values of `HookError`:
  - `HookCallError(argname)` is the `HookCallError` class;
  - `WrapFail(wrapper, kind)` is the `RuntimeError` of `_raise_wrapfail`,
    with kind `DidNotYield` or `SecondYield`;
  - `Raised(e)` is any other exception, as an opaque value.

  An implementation, a wrapper's setup and a teardown may raise any of the
  three. A teardown that calls `get_result` re-raises whatever the outcome
  holds.
- `CallLoop` (`callloop.dfy`): implementations are data (`HookImpl`):
  - a plain implementation is a function from its bound arguments to "returns
    `Option<V>`" or "raises";
  - a wrapper's run up to its first `yield` is a function from its bound
    arguments to `Yielded(resume)`, `Stopped` (it finished without yielding)
    or `SetupRaise`;
  - its continuation `resume` is a function from the outcome it is sent to
    `Finish(forced)`, `YieldAgain` or `TeardownRaise`.

  Four functions specify a call:
  - `State(impls, kwargs, firstresult, i)` is the traversal state once
    position `i` of `reversed(hook_impls)` is reached;
  - `Initial` is the outcome built in the `finally` block;
  - `Unwind` runs the queued teardowns;
  - `HookCall` is what `execute` returns or raises.

  `MultiCall.Execute` is the imperative loop. It is proved equal to
  `HookCall`.
- `CallLoopProperties` (`properties.dfy`) and `CallLoopScenarios`
  (`scenarios.dfy`): the properties of the call, stated for all inputs, and
  worked examples.

The traversal state also records `invoked`: the positions whose function was
called, in call order. The source does not keep this list. The model needs it
to state which implementations ran. In `MultiCall.CallImplementations` it is
a ghost variable.

Three consequences of the code deserve stating:

- `HookCallError` and the did-not-yield `RuntimeError` are raised inside the
  `try` of pluggy/callers.py:90-115. So both are captured into the outcome
  like any other exception, and a teardown's `force_result` clears them
  (`CallLoopScenarios.MissingArgumentSuppressedByWrapper`). A teardown that
  calls `get_result` re-raises them instead
  (`CallLoopScenarios.TeardownReRaisesHookCallError`).
- `execute` walks the list it is given in reverse, so a wrapper given first is
  set up last. If an implementation processed before it raises, or a
  firstresult value stops the loop, that wrapper is never set up
  (`CallLoopScenarios.WrapperGivenFirstIsNeverSetUp` and
  `CallLoopScenarios.FirstResultSkipsEarlierRegistrations`). A wrapper given
  last is set up first, and its forced result wins over an exception captured
  later (`CallLoopScenarios.ForceResultSuppressesException`).
- The firstresult `break` ends the whole traversal. It also skips the setup of
  wrappers registered earlier (`CallLoopProperties.FirstResultSkipsTheRest`).

## Model

| member | source | states |
|---|---|---|
| `Outcomes.Captured` | pluggy/callers.py:37-45 | the captured state has no exception exactly when the callable returned normally |
| `Outcomes.Forced` | pluggy/callers.py:47-55 | after `force_result(v)` no exception is captured and `get_result` returns exactly `v` |
| `Outcomes.FromCallRoundTrip` | pluggy/callers.py:37-70 | `get_result` after `from_call` returns the callable's value, or re-raises the very exception it raised (with result `None`) |
| `Outcomes.Outcome.constructor` | pluggy/callers.py:28-30 | the new outcome holds the given result and exception |
| `Outcomes.Outcome.Excinfo` | pluggy/callers.py:32-34 | the `excinfo` property is empty exactly when `get_result` returns, and otherwise it is the exception `get_result` raises |
| `Outcomes.Outcome.FromCall` | pluggy/callers.py:36-45 | a fresh outcome holding the callable's return value and no exception, or `None` and the exception it raised |
| `Outcomes.Outcome.ForceResult` | pluggy/callers.py:47-55 | overwrites `result` and clears `excinfo` in place |
| `Outcomes.Outcome.GetResult` | pluggy/callers.py:57-70 | returns `result` when no exception is captured, otherwise the captured exception; it modifies nothing, so repeated calls agree |
| `CallLoop.Bind` | pluggy/callers.py:93-99 | binding succeeds exactly when every required name is supplied, and then gives the values in `argnames` order; otherwise it names the first missing argument |
| `CallLoop.BindArgs` | pluggy/callers.py:92-99 | the binding loop computes exactly `Bind` |
| `CallLoop.FirstMissingUnique` | pluggy/callers.py:96-99 | the missing name reported is the first one in `argnames` order |
| `CallLoop.UnwindLast` | pluggy/callers.py:123-128 | resuming the next queued teardown: finishing (after an optional force) moves on, a second yield fails with `SecondYield`, a teardown's exception escapes |
| `CallLoop.HaltedIsFinal` | pluggy/callers.py:112-115 | after the `break` or a caught exception, no later position changes the traversal |
| `CallLoop.MultiCall.constructor` | pluggy/callers.py:76-80 | stores the implementations, the keyword arguments and the firstresult option |
| `CallLoop.MultiCall.Execute` | pluggy/callers.py:82-130 | `execute` returns or raises exactly what the specification `HookCall` gives |
| `CallLoop.MultiCall.CallImplementations` | pluggy/callers.py:88-115 | the implementation loop leaves exactly the specified `results`, `teardowns` and `excinfo` |
| `CallLoop.RunTeardowns` | pluggy/callers.py:122-130 | the teardown loop and `get_result` give exactly what `Unwind` specifies, and leave the shared outcome in the specified final state |
| `CallLoopProperties.InvokedCountsDown` | pluggy/callers.py:91 | implementations are called last-registered first, none skipped; while the loop runs, every position reached has been called |
| `CallLoopProperties.StepInvoked` | pluggy/callers.py:92-113 | one pass of the loop body calls its implementation exactly when binding its arguments succeeds; otherwise it calls nothing and the loop stops |
| `CallLoopProperties.InvokedInReverseOrder` | pluggy/callers.py:91 | the `k`-th call of the whole traversal is at position `len(hook_impls) - 1 - k` |
| `CallLoopProperties.StateAccounts` | pluggy/callers.py:101-113 | at every point, `results` is the non-`None` returns of the implementations called so far, in call order, and `teardowns` is the continuations of the called wrappers that yielded, in setup order |
| `CallLoopProperties.StepAccounts` | pluggy/callers.py:101-113 | one pass of the loop body keeps `results` and `teardowns` accounted for by the calls made |
| `CallLoopProperties.AccountsAppend` | pluggy/callers.py:105-111 | one more call adds its value or its continuation at the end of `results` or `teardowns` |
| `CallLoopProperties.TraversalAccounts` | pluggy/callers.py:101-113 | the same accounting for the finished traversal |
| `CallLoopProperties.QueuedWereInvoked` | pluggy/callers.py:101-105 | every queued teardown belongs to a wrapper that was called |
| `CallLoopProperties.PassingKeepsGoing` | pluggy/callers.py:91-113 | when no position from `i` up raises or stops a firstresult hook, the loop is still running at `i` |
| `CallLoopProperties.CollectsInReverseRegistrationOrder` | pluggy/callers.py:91-120 | plain implementations that all return normally, without firstresult: all are called, and the call returns their non-`None` values in reverse registration order (`None` omitted), equal to the reference definition `ReturnValues` |
| `CallLoopProperties.PlainRunCollects` | pluggy/callers.py:109-111 | the same, for every position of the traversal |
| `CallLoopProperties.FirstResultStopsAtFirstValue` | pluggy/callers.py:110-113 | firstresult: at most one value is collected; every call before the last returned `None` or was a wrapper; the value comes from the last call |
| `CallLoopProperties.FirstValueStep` | pluggy/callers.py:110-113 | one more step of a running firstresult traversal keeps that property |
| `CallLoopProperties.FirstResultSkipsTheRest` | pluggy/callers.py:112-118 | after a firstresult value at position `k`, nothing below `k` is called or set up, so no wrapper below `k` is torn down; the outcome built is exactly the value position `k` returned, with no exception |
| `CallLoopProperties.FirstResultNoException` | pluggy/callers.py:109-115 | a firstresult traversal that has collected a value has captured no exception |
| `CallLoopProperties.QueuedAboveLast` | pluggy/callers.py:101-113 | when every call is at or above the position that returned the value, every queued teardown is a wrapper above it |
| `CallLoopProperties.FirstResultIsFirstValue` | pluggy/callers.py:112-118 | firstresult with plain implementations that return normally: the call returns the first non-`None` value in reverse registration order, or `None` |
| `CallLoopProperties.FirstResultRun` | pluggy/callers.py:112-118 | the same, for every position of the traversal |
| `CallLoopProperties.CapturedFailure` | pluggy/callers.py:88-130 | an exception at position `k` (missing argument, no yield, or raised) is captured; the traversal ends, calling nothing below `k`; the wrappers set up above `k` stay queued; the exception reaches the caller when every teardown finishes without forcing a result |
| `CallLoopProperties.MissingArgument` | pluggy/callers.py:93-99 | a missing argument gives `HookCallError` naming the first missing name; that implementation and all after it in traversal order are not called |
| `CallLoopProperties.WrapperWithoutYield` | pluggy/callers.py:101-107 | a wrapper that finishes without yielding is reported as `DidNotYield` for that wrapper and captured; it was the last call |
| `CallLoopProperties.IndicesPrefix` | pluggy/callers.py:123 | positions of a prefix of the queue are the prefix of the positions |
| `CallLoopProperties.UnwindUntouched` | pluggy/callers.py:123-130 | teardowns that finish without forcing leave the outcome unchanged and all run, last-queued first |
| `CallLoopProperties.UnwindOrder` | pluggy/callers.py:123-128 | the teardowns resumed are a prefix of the queue in reverse setup order, and are all of it when none breaks out |
| `CallLoopProperties.UnwindKeepsOrForces` | pluggy/callers.py:123-130 | the final outcome is the one the teardowns were given, or a forced one with no exception |
| `CallLoopProperties.UnwindSplit` | pluggy/callers.py:123-128 | teardowns share one outcome: later teardowns see exactly what earlier ones left; nothing runs after one breaks out |
| `CallLoopProperties.SecondYieldEscapes` | pluggy/callers.py:124-128 | a second yield fails the call with `SecondYield` naming that wrapper, and the remaining teardowns and `get_result` are skipped |
| `CallLoopProperties.ReRaisingTeardownEscapes` | pluggy/callers.py:123-128 | a teardown that calls `get_result` on an outcome holding an exception lets that same exception leave the call, the remaining teardowns unrun; on an outcome without one the unwinding goes on unchanged |
| `CallLoopProperties.ForcedResultReturned` | pluggy/callers.py:123-130 | a force in one teardown is what the next teardown sees and, when the later teardowns finish without forcing, what the call returns, with any exception suppressed |
| `CallLoopProperties.CapturedExceptionReachesCaller` | pluggy/callers.py:114-130 | a captured exception is re-raised to the caller when every teardown finishes without forcing; conversely, an exception reaching the caller is the captured one unless a teardown broke out itself, and a normal return means no exception is left |
| `CallLoopProperties.TeardownsReverseSetup` | pluggy/callers.py:105-128 | for a whole call, the teardowns run in the reverse of their wrappers' setup order, and the queue holds exactly the wrappers that yielded |
| `CallLoopScenarios.CollectsAll` | pluggy/callers.py:88-130 | `[A wrapper, B -> 1, C -> 2]`: C, B, A in that order, result `[2, 1]` |
| `CallLoopScenarios.FirstResultSkipsEarlierRegistrations` | pluggy/callers.py:112-118 | the same with firstresult: only C is called, A is never set up, result `2` |
| `CallLoopScenarios.ForceResultSuppressesException` | pluggy/callers.py:114-130 | B raises, and wrapper A (given last) forces 99: the call returns 99 |
| `CallLoopScenarios.WrapperGivenFirstIsNeverSetUp` | pluggy/callers.py:91-115 | the wrapper given first is processed after B raises, so it is never set up, and B's exception reaches the caller |
| `CallLoopScenarios.ExceptionReachesCaller` | pluggy/callers.py:114-130 | B's exception reaches the caller when nothing forces a result |
| `CallLoopScenarios.TeardownReRaisesHookCallError` | pluggy/callers.py:93-128 | `[B needing "x", A re-raising through get_result, W forcing 7]` with no arguments: W and A are set up, only A's teardown runs, and the call raises `HookCallError("x")` |
| `CallLoopScenarios.TeardownExceptionReplacesCaptured` | pluggy/callers.py:123-128 | a teardown that forces nothing but raises makes the call raise its exception, not the captured one |
| `CallLoopScenarios.LaterForceWins` | pluggy/callers.py:123-130 | of two forcing wrappers, the one given last is torn down last, and its forced value is what the call returns |
| `CallLoopScenarios.MissingArgumentReported` | pluggy/callers.py:93-99 | the first missing name is reported and the implementation is not called |
| `CallLoopScenarios.MissingArgumentSuppressedByWrapper` | pluggy/callers.py:93-125 | a `HookCallError` is captured, so a wrapper's forced result hides it |
| `CallLoopScenarios.WrapperThatDoesNotYield` | pluggy/callers.py:101-107 | a wrapper given last that does not yield fails the call before any plain implementation runs |
| `CallLoopScenarios.WrapperThatYieldsTwice` | pluggy/callers.py:124-128 | a teardown that yields again fails the call with `SecondYield` |

## Left out

- Tracebacks: `sys.exc_info`, `with_traceback` and the Python 2 `_reraise`
  built with `exec` (pluggy/callers.py:10-14, 43, 67-70) are not modelled. A
  captured exception is one opaque value, re-raised as that same value.
- `__tracebackhide__` (pluggy/callers.py:38, 63, 83) is a debugger hint with no
  behaviour.
- `HookCallError`'s message text (pluggy/callers.py:98-99) is not modelled.
  The error carries only the name of the first missing argument.
- `_raise_wrapfail`'s reading of `gi_code` and its message text
  (pluggy/callers.py:17-20) are not modelled. The error carries the wrapper's
  name and which rule was broken.
- The `specopts` / `hook.spec_opts` lookup and its mutable default argument
  (pluggy/callers.py:76, 80, 86) are not modelled. `firstresult` is a plain
  boolean.
- `__repr__` (pluggy/callers.py:132-136) is diagnostic text only.
- Python generators and `*args` calls are not modelled. Implementations are
  the data described above, so the model checks the loop, not user code. A
  teardown is summed up by what can be observed afterwards: the last value it
  forced, a second `yield`, or the exception it raises (its own, or a captured
  one re-raised through `get_result`). A wrapper that forces a value
  and then raises or yields again is fully described by its escape.
- The `self.results` attribute and its aliasing with the list stored in the
  outcome (pluggy/callers.py:85, 120) are not modelled. The list is a value, so
  a teardown that changes the list from `get_result()` in place is not
  modelled.
- Both loops of `execute` exist, but as two helper methods:
  `MultiCall.CallImplementations` and `RunTeardowns`. `Execute` calls them in
  source order.
- An exception of an implementation's own is one opaque value of type `E`. So a
  `StopIteration` or a `KeyboardInterrupt` from a plain implementation is just
  `Raised(e)`, as `except BaseException` treats it.
- `Outcomes.Outcome.GetResult`: "two calls give the same answer" is not a
  separate lemma. It follows from the method having no `modifies` clause.
