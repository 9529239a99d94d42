/**
 * What one hook call guarantees: the order in which implementations are
 * called and wrappers are set up and torn down, what is collected, where the
 * loop stops, and which exception reaches the caller.
 */
module CallLoopProperties {
  import opened Wrappers
  import opened Outcomes
  import opened CallLoop

  // ---------------------------------------------------------------------------
  // Vocabulary

  /** The positions of queued teardowns, in the order they were queued. */
  function Indices<V, E>(pending: seq<Pending<V, E>>): seq<nat>
  {
    seq(|pending|, k requires 0 <= k < |pending| => pending[k].index)
  }

  function Reverse(s: seq<nat>): seq<nat>
  {
    if s == [] then [] else [s[|s| - 1]] + Reverse(s[..|s| - 1])
  }

  /** Positions `hi - 1` down to `lo`: the order of `reversed(hook_impls)`. */
  function Countdown(hi: nat, lo: nat): seq<nat>
    requires lo <= hi
  {
    seq(hi - lo, k requires 0 <= k < hi - lo => hi - 1 - k)
  }

  /** The implementation returned something other than `None`. */
  predicate ReturnsValue<V, E>(impl: HookImpl<V, E>, kwargs: map<string, V>)
  {
    EffectOf(impl, kwargs).Returned? && EffectOf(impl, kwargs).res.Some?
  }

  /** Processing the implementation does not leave the loop. */
  predicate Passes<V, E>(impl: HookImpl<V, E>, kwargs: map<string, V>, firstresult: bool)
  {
    match EffectOf(impl, kwargs)
    case Returned(res) => !(firstresult && res.Some?)
    case Queued(_) => true
    case Failed(_, _) => false
  }

  /** The non-`None` return values of the implementations at `inv`, in that order. */
  function ValuesAt<V, E>(impls: seq<HookImpl<V, E>>, kwargs: map<string, V>, inv: seq<nat>): seq<V>
    requires forall k :: 0 <= k < |inv| ==> inv[k] < |impls|
  {
    if inv == [] then []
    else
      var i := inv[|inv| - 1];
      ValuesAt(impls, kwargs, inv[..|inv| - 1])
        + (if ReturnsValue(impls[i], kwargs) then [EffectOf(impls[i], kwargs).res.value] else [])
  }

  /** The continuations of the wrappers at `inv` that yielded, in that order. */
  function QueuedAt<V, E>(impls: seq<HookImpl<V, E>>, kwargs: map<string, V>, inv: seq<nat>): seq<Pending<V, E>>
    requires forall k :: 0 <= k < |inv| ==> inv[k] < |impls|
  {
    if inv == [] then []
    else
      var i := inv[|inv| - 1];
      QueuedAt(impls, kwargs, inv[..|inv| - 1])
        + (match EffectOf(impls[i], kwargs)
           case Queued(resume) => [Pending(i, impls[i].name, resume)]
           case _ => [])
  }

  /**
   * Reference definition, independent of the loop: the non-`None` return
   * values of plain implementations, last-registered first.
   */
  function ReturnValues<V, E>(impls: seq<HookImpl<V, E>>, kwargs: map<string, V>): seq<V>
  {
    if impls == [] then []
    else
      ReturnValues(impls[1..], kwargs)
        + (if ReturnsValue(impls[0], kwargs) then [EffectOf(impls[0], kwargs).res.value] else [])
  }

  /** Every queued teardown, resumed with `o`, finishes without forcing a result. */
  ghost predicate Untouched<V, E>(pending: seq<Pending<V, E>>, o: OutcomeState<V, E>)
  {
    forall k :: 0 <= k < |pending| ==> pending[k].resume(o) == Finish(None)
  }

  // ---------------------------------------------------------------------------
  // The traversal

  /**
   * Implementations are called last-registered first, one after the other,
   * none skipped: the `k`-th call is at position `|impls| - 1 - k`. While the
   * loop has not stopped, every position reached has been called.
   */
  lemma {:induction false} InvokedCountsDown<V, E>(impls: seq<HookImpl<V, E>>, kwargs: map<string, V>, firstresult: bool, i: nat)
    requires i <= |impls|
    ensures |State(impls, kwargs, firstresult, i).invoked| <= |impls| - i
    ensures !Halted(State(impls, kwargs, firstresult, i), firstresult) ==>
      State(impls, kwargs, firstresult, i).invoked == Countdown(|impls|, i)
    ensures forall k :: 0 <= k < |State(impls, kwargs, firstresult, i).invoked| ==>
      State(impls, kwargs, firstresult, i).invoked[k] == |impls| - 1 - k
    decreases |impls| - i
  {
    if i < |impls| {
      InvokedCountsDown(impls, kwargs, firstresult, i + 1);
      var t := State(impls, kwargs, firstresult, i + 1);
      if !Halted(t, firstresult) {
        StepInvoked(t, i, impls[i], kwargs, firstresult);
        assert Countdown(|impls|, i) == Countdown(|impls|, i + 1) + [i];
      }
    }
  }

  /** One step calls position `i` or, when it captures an exception first, nothing. */
  lemma StepInvoked<V, E>(t: Traversal<V, E>, i: nat, impl: HookImpl<V, E>, kwargs: map<string, V>, firstresult: bool)
    requires !Halted(t, firstresult)
    ensures Step(t, i, impl, kwargs).invoked == t.invoked + [i]
         || (Step(t, i, impl, kwargs).invoked == t.invoked && Halted(Step(t, i, impl, kwargs), firstresult))
    ensures Step(t, i, impl, kwargs).invoked == t.invoked <==> Bind(impl.argnames, kwargs).Err?
  {
  }

  /** The whole traversal visits positions in reverse registration order. */
  lemma InvokedInReverseOrder<V, E>(impls: seq<HookImpl<V, E>>, kwargs: map<string, V>, firstresult: bool)
    ensures |Traversed(impls, kwargs, firstresult).invoked| <= |impls|
    ensures forall k :: 0 <= k < |Traversed(impls, kwargs, firstresult).invoked| ==>
      Traversed(impls, kwargs, firstresult).invoked[k] == |impls| - 1 - k
  {
    InvokedCountsDown(impls, kwargs, firstresult, 0);
  }

  /**
   * `results` holds exactly the non-`None` return values of the called
   * implementations, in call order, and `teardowns` exactly the continuations
   * of the called wrappers that yielded, in setup order.
   */
  lemma {:induction false} StateAccounts<V, E>(impls: seq<HookImpl<V, E>>, kwargs: map<string, V>, firstresult: bool, i: nat)
    requires i <= |impls|
    ensures forall k :: 0 <= k < |State(impls, kwargs, firstresult, i).invoked| ==>
      State(impls, kwargs, firstresult, i).invoked[k] < |impls|
    ensures State(impls, kwargs, firstresult, i).results
         == ValuesAt(impls, kwargs, State(impls, kwargs, firstresult, i).invoked)
    ensures State(impls, kwargs, firstresult, i).teardowns
         == QueuedAt(impls, kwargs, State(impls, kwargs, firstresult, i).invoked)
    decreases |impls| - i
  {
    if i < |impls| {
      StateAccounts(impls, kwargs, firstresult, i + 1);
      var t := State(impls, kwargs, firstresult, i + 1);
      if !Halted(t, firstresult) {
        assert State(impls, kwargs, firstresult, i) == Step(t, i, impls[i], kwargs);
        StepAccounts(impls, kwargs, t, i);
      } else {
        assert State(impls, kwargs, firstresult, i) == t;
      }
    }
  }

  /** One step of the traversal keeps `results` and `teardowns` accounted for by `invoked`. */
  lemma StepAccounts<V, E>(impls: seq<HookImpl<V, E>>, kwargs: map<string, V>, t: Traversal<V, E>, i: nat)
    requires i < |impls|
    requires forall k :: 0 <= k < |t.invoked| ==> t.invoked[k] < |impls|
    requires t.results == ValuesAt(impls, kwargs, t.invoked)
    requires t.teardowns == QueuedAt(impls, kwargs, t.invoked)
    ensures forall k :: 0 <= k < |Step(t, i, impls[i], kwargs).invoked| ==> Step(t, i, impls[i], kwargs).invoked[k] < |impls|
    ensures Step(t, i, impls[i], kwargs).results == ValuesAt(impls, kwargs, Step(t, i, impls[i], kwargs).invoked)
    ensures Step(t, i, impls[i], kwargs).teardowns == QueuedAt(impls, kwargs, Step(t, i, impls[i], kwargs).invoked)
  {
    AccountsAppend(impls, kwargs, t.invoked, i);
  }

  /** Calling one more implementation adds its value or its continuation at the end. */
  lemma AccountsAppend<V, E>(impls: seq<HookImpl<V, E>>, kwargs: map<string, V>, inv: seq<nat>, i: nat)
    requires forall k :: 0 <= k < |inv| ==> inv[k] < |impls|
    requires i < |impls|
    ensures ValuesAt(impls, kwargs, inv + [i])
         == ValuesAt(impls, kwargs, inv) + (if ReturnsValue(impls[i], kwargs) then [EffectOf(impls[i], kwargs).res.value] else [])
    ensures QueuedAt(impls, kwargs, inv + [i])
         == QueuedAt(impls, kwargs, inv)
            + (match EffectOf(impls[i], kwargs)
               case Queued(resume) => [Pending(i, impls[i].name, resume)]
               case _ => [])
  {
    assert (inv + [i])[..|inv|] == inv;
  }

  /** The traversal's `results` and `teardowns`, accounted for by the calls it made. */
  lemma TraversalAccounts<V, E>(impls: seq<HookImpl<V, E>>, kwargs: map<string, V>, firstresult: bool)
    ensures forall k :: 0 <= k < |Traversed(impls, kwargs, firstresult).invoked| ==>
      Traversed(impls, kwargs, firstresult).invoked[k] < |impls|
    ensures Traversed(impls, kwargs, firstresult).results
         == ValuesAt(impls, kwargs, Traversed(impls, kwargs, firstresult).invoked)
    ensures Traversed(impls, kwargs, firstresult).teardowns
         == QueuedAt(impls, kwargs, Traversed(impls, kwargs, firstresult).invoked)
  {
    StateAccounts(impls, kwargs, firstresult, 0);
  }

  /** Every queued teardown belongs to an implementation that was called. */
  lemma {:induction false} QueuedWereInvoked<V, E>(impls: seq<HookImpl<V, E>>, kwargs: map<string, V>, inv: seq<nat>)
    requires forall k :: 0 <= k < |inv| ==> inv[k] < |impls|
    ensures forall m :: 0 <= m < |QueuedAt(impls, kwargs, inv)| ==>
      QueuedAt(impls, kwargs, inv)[m].index in inv && impls[QueuedAt(impls, kwargs, inv)[m].index].kind.HookWrapper?
  {
    if inv != [] {
      QueuedWereInvoked(impls, kwargs, inv[..|inv| - 1]);
    }
  }

  /** Not leaving the loop anywhere from position `i` up means the loop is still running at `i`. */
  lemma {:induction false} PassingKeepsGoing<V, E>(impls: seq<HookImpl<V, E>>, kwargs: map<string, V>, firstresult: bool, i: nat)
    requires i <= |impls|
    requires forall j :: i <= j < |impls| ==> Passes(impls[j], kwargs, firstresult)
    ensures !Halted(State(impls, kwargs, firstresult, i), firstresult)
    decreases |impls| - i
  {
    if i < |impls| {
      PassingKeepsGoing(impls, kwargs, firstresult, i + 1);
    }
  }

  /**
   * A hook with only plain implementations that all return normally, and no
   * firstresult option: the call returns their non-`None` return values,
   * last-registered first, and calls every one of them.
   */
  lemma {:induction false} CollectsInReverseRegistrationOrder<V, E>(impls: seq<HookImpl<V, E>>, kwargs: map<string, V>)
    requires forall j :: 0 <= j < |impls| ==> EffectOf(impls[j], kwargs).Returned?
    ensures Traversed(impls, kwargs, false).invoked == Countdown(|impls|, 0)
    ensures HookCall(impls, kwargs, false) == Ok(Many(ReturnValues(impls, kwargs)))
  {
    PlainRunCollects(impls, kwargs, 0);
    InvokedCountsDown(impls, kwargs, false, 0);
  }

  lemma {:induction false} PlainRunCollects<V, E>(impls: seq<HookImpl<V, E>>, kwargs: map<string, V>, i: nat)
    requires i <= |impls|
    requires forall j :: i <= j < |impls| ==> EffectOf(impls[j], kwargs).Returned?
    ensures State(impls, kwargs, false, i).results == ReturnValues(impls[i..], kwargs)
    ensures State(impls, kwargs, false, i).teardowns == []
    ensures State(impls, kwargs, false, i).excinfo == None
    decreases |impls| - i
  {
    if i < |impls| {
      PlainRunCollects(impls, kwargs, i + 1);
      assert impls[i..][1..] == impls[i + 1..];
    } else {
      assert impls[i..] == [];
    }
  }

  /**
   * A firstresult hook stops right after the first non-`None` value: at most
   * one value is collected, every implementation called before the last one
   * returned `None` or was a wrapper, and the value comes from the last call.
   */
  lemma {:induction false} FirstResultStopsAtFirstValue<V, E>(impls: seq<HookImpl<V, E>>, kwargs: map<string, V>, i: nat)
    requires i <= |impls|
    ensures FirstValueIsLast(impls, kwargs, State(impls, kwargs, true, i))
    decreases |impls| - i
  {
    if i < |impls| {
      FirstResultStopsAtFirstValue(impls, kwargs, i + 1);
      var t := State(impls, kwargs, true, i + 1);
      if !Halted(t, true) {
        InvokedCountsDown(impls, kwargs, true, i + 1);
        assert State(impls, kwargs, true, i) == Step(t, i, impls[i], kwargs);
        FirstValueStep(impls, kwargs, t, i);
      }
    }
  }

  /** At most one value, from the last call; no call before it returned a value. */
  ghost predicate FirstValueIsLast<V, E>(impls: seq<HookImpl<V, E>>, kwargs: map<string, V>, t: Traversal<V, E>)
  {
    && (forall k :: 0 <= k < |t.invoked| ==> t.invoked[k] < |impls|)
    && |t.results| <= 1
    && (forall k :: 0 <= k < |t.invoked| - 1 ==> !ReturnsValue(impls[t.invoked[k]], kwargs))
    && (t.results == [] ==> forall k :: 0 <= k < |t.invoked| ==> !ReturnsValue(impls[t.invoked[k]], kwargs))
    && (t.results != [] ==>
          t.invoked != [] && EffectOf(impls[t.invoked[|t.invoked| - 1]], kwargs) == Returned(Some(t.results[0])))
  }

  lemma FirstValueStep<V, E>(impls: seq<HookImpl<V, E>>, kwargs: map<string, V>, t: Traversal<V, E>, i: nat)
    requires i < |impls|
    requires FirstValueIsLast(impls, kwargs, t) && !Halted(t, true)
    ensures FirstValueIsLast(impls, kwargs, Step(t, i, impls[i], kwargs))
  {
    var t' := Step(t, i, impls[i], kwargs);
    assert t.results == [];
    if t'.invoked != t.invoked {
      assert t'.invoked == t.invoked + [i];
      forall k | 0 <= k < |t'.invoked| - 1 ensures !ReturnsValue(impls[t'.invoked[k]], kwargs) {
        assert t'.invoked[k] == t.invoked[k];
      }
    }
  }

  /**
   * Once a firstresult hook has its value at position `k`, nothing at a lower
   * position runs: no implementation is called and no wrapper is set up (so
   * none is torn down either), and the outcome is that single value.
   */
  lemma FirstResultSkipsTheRest<V, E>(impls: seq<HookImpl<V, E>>, kwargs: map<string, V>)
    requires Traversed(impls, kwargs, true).results != []
    ensures var t := Traversed(impls, kwargs, true);
      t.invoked != [] && t.invoked[|t.invoked| - 1] < |impls|
      && ReturnsValue(impls[t.invoked[|t.invoked| - 1]], kwargs)
      && (forall j :: 0 <= j < t.invoked[|t.invoked| - 1] ==> j !in t.invoked)
      && (forall m :: 0 <= m < |t.teardowns| ==> t.teardowns[m].index > t.invoked[|t.invoked| - 1])
      && Initial(t, true)
         == OutcomeState(Single(Some(EffectOf(impls[t.invoked[|t.invoked| - 1]], kwargs).res.value)), None)
  {
    var t := Traversed(impls, kwargs, true);
    FirstResultStopsAtFirstValue(impls, kwargs, 0);
    FirstResultNoException(impls, kwargs, 0);
    InvokedInReverseOrder(impls, kwargs, true);
    var last := t.invoked[|t.invoked| - 1];
    assert forall k :: 0 <= k < |t.invoked| ==> t.invoked[k] >= last;
    TraversalAccounts(impls, kwargs, true);
    QueuedAboveLast(impls, kwargs, t, last);
  }

  /** A firstresult traversal that has collected a value has captured no exception. */
  lemma {:induction false} FirstResultNoException<V, E>(impls: seq<HookImpl<V, E>>, kwargs: map<string, V>, i: nat)
    requires i <= |impls|
    ensures State(impls, kwargs, true, i).results != [] ==> State(impls, kwargs, true, i).excinfo == None
    decreases |impls| - i
  {
    if i < |impls| {
      FirstResultNoException(impls, kwargs, i + 1);
    }
  }

  /**
   * When every call of `t` is at `last` or above and the call at `last`
   * returned a value, every queued teardown belongs to a wrapper above `last`.
   */
  lemma QueuedAboveLast<V, E>(impls: seq<HookImpl<V, E>>, kwargs: map<string, V>, t: Traversal<V, E>, last: nat)
    requires forall k :: 0 <= k < |t.invoked| ==> t.invoked[k] < |impls|
    requires t.teardowns == QueuedAt(impls, kwargs, t.invoked)
    requires last < |impls| && EffectOf(impls[last], kwargs).Returned?
    requires forall k :: 0 <= k < |t.invoked| ==> t.invoked[k] >= last
    ensures forall m :: 0 <= m < |t.teardowns| ==> t.teardowns[m].index > last
  {
    QueuedWereInvoked(impls, kwargs, t.invoked);
    forall m | 0 <= m < |t.teardowns| ensures t.teardowns[m].index > last {
      var k :| 0 <= k < |t.invoked| && t.invoked[k] == t.teardowns[m].index;
    }
  }

  /**
   * A firstresult hook whose implementations are all plain and return
   * normally gives the first non-`None` value in reverse registration order,
   * or `None` when there is none.
   */
  lemma {:induction false} FirstResultIsFirstValue<V, E>(impls: seq<HookImpl<V, E>>, kwargs: map<string, V>)
    requires forall j :: 0 <= j < |impls| ==> EffectOf(impls[j], kwargs).Returned?
    ensures HookCall(impls, kwargs, true)
         == Ok(Single(if ReturnValues(impls, kwargs) == [] then None else Some(ReturnValues(impls, kwargs)[0])))
  {
    FirstResultRun(impls, kwargs, 0);
  }

  lemma {:induction false} FirstResultRun<V, E>(impls: seq<HookImpl<V, E>>, kwargs: map<string, V>, i: nat)
    requires i <= |impls|
    requires forall j :: i <= j < |impls| ==> EffectOf(impls[j], kwargs).Returned?
    ensures State(impls, kwargs, true, i).results
         == (if ReturnValues(impls[i..], kwargs) == [] then [] else [ReturnValues(impls[i..], kwargs)[0]])
    ensures State(impls, kwargs, true, i).teardowns == []
    ensures State(impls, kwargs, true, i).excinfo == None
    decreases |impls| - i
  {
    if i < |impls| {
      FirstResultRun(impls, kwargs, i + 1);
      assert impls[i..][1..] == impls[i + 1..];
    } else {
      assert impls[i..] == [];
    }
  }

  /**
   * An exception while processing position `k` (a missing argument, a wrapper
   * that does not yield, or an exception from the implementation) ends the
   * traversal there: it is captured into the outcome, nothing below `k` is
   * called, the wrappers set up above `k` stay queued, and it reaches the
   * caller when every teardown finishes without forcing a result.
   */
  lemma CapturedFailure<V, E>(impls: seq<HookImpl<V, E>>, kwargs: map<string, V>, firstresult: bool, k: nat)
    requires k < |impls|
    requires forall j :: k < j < |impls| ==> Passes(impls[j], kwargs, firstresult)
    requires EffectOf(impls[k], kwargs).Failed?
    ensures var t := Traversed(impls, kwargs, firstresult);
      var eff := EffectOf(impls[k], kwargs);
      t.excinfo == Some(eff.error)
      && t.invoked == Countdown(|impls|, if eff.called then k else k + 1)
      && t.teardowns == QueuedAt(impls, kwargs, Countdown(|impls|, k + 1))
    ensures var t := Traversed(impls, kwargs, firstresult);
      Untouched(t.teardowns, Initial(t, firstresult)) ==>
        HookCall(impls, kwargs, firstresult) == Err(EffectOf(impls[k], kwargs).error)
  {
    PassingKeepsGoing(impls, kwargs, firstresult, k + 1);
    InvokedCountsDown(impls, kwargs, firstresult, k + 1);
    StateAccounts(impls, kwargs, firstresult, k + 1);
    var before := State(impls, kwargs, firstresult, k + 1);
    var t := State(impls, kwargs, firstresult, k);
    assert t == Step(before, k, impls[k], kwargs);
    HaltedIsFinal(impls, kwargs, firstresult, k);
    if EffectOf(impls[k], kwargs).called {
      assert t.invoked == Countdown(|impls|, k);
    }
    if Untouched(t.teardowns, Initial(t, firstresult)) {
      UnwindUntouched(t.teardowns, Initial(t, firstresult));
    }
  }

  /**
   * A missing argument: `HookCallError` names the first missing argument of
   * that implementation, which is not called, and neither is anything after it.
   */
  lemma MissingArgument<V, E>(impls: seq<HookImpl<V, E>>, kwargs: map<string, V>, firstresult: bool, k: nat)
    requires k < |impls|
    requires forall j :: k < j < |impls| ==> Passes(impls[j], kwargs, firstresult)
    requires exists n :: n in impls[k].argnames && n !in kwargs
    ensures var t := Traversed(impls, kwargs, firstresult);
      t.excinfo.Some? && t.excinfo.value.HookCallError?
      && (exists m: nat :: MissingFirstAt(impls[k].argnames, kwargs, m) && t.excinfo.value.argname == impls[k].argnames[m])
      && (forall j :: j in t.invoked ==> k < j < |impls|)
  {
    var t := Traversed(impls, kwargs, firstresult);
    CapturedFailure(impls, kwargs, firstresult, k);
    forall j | j in t.invoked ensures k < j < |impls| {
      var m :| 0 <= m < |t.invoked| && t.invoked[m] == j;
    }
  }

  /** A wrapper that finishes without yielding is reported as `DidNotYield`, and that error is captured. */
  lemma WrapperWithoutYield<V, E>(impls: seq<HookImpl<V, E>>, kwargs: map<string, V>, firstresult: bool, k: nat)
    requires k < |impls|
    requires forall j :: k < j < |impls| ==> Passes(impls[j], kwargs, firstresult)
    requires impls[k].kind.HookWrapper? && Bind(impls[k].argnames, kwargs).Ok?
    requires impls[k].kind.setup(Bind(impls[k].argnames, kwargs).value).Stopped?
    ensures Traversed(impls, kwargs, firstresult).excinfo == Some(WrapFail(impls[k].name, DidNotYield))
    ensures Traversed(impls, kwargs, firstresult).invoked == Countdown(|impls|, k)
  {
    CapturedFailure(impls, kwargs, firstresult, k);
  }

  // ---------------------------------------------------------------------------
  // The teardowns

  lemma IndicesPrefix<V, E>(pending: seq<Pending<V, E>>, n: nat)
    requires n <= |pending|
    ensures Indices(pending[..n]) == Indices(pending)[..n]
  {
  }

  /** Teardowns that all finish without forcing leave the outcome as it was, and all run, last-queued first. */
  lemma {:induction false} UnwindUntouched<V, E>(pending: seq<Pending<V, E>>, o: OutcomeState<V, E>)
    requires Untouched(pending, o)
    ensures Unwind(pending, o) == Unwound(Ok(o), Reverse(Indices(pending)))
    decreases |pending|
  {
    if pending != [] {
      var n := |pending|;
      UnwindUntouched(pending[..n - 1], o);
      IndicesPrefix(pending, n - 1);
    }
  }

  /**
   * Teardowns run in exactly the reverse of their setup order: the wrappers
   * resumed are a prefix of the queued ones, last-queued first, and all of
   * them when no teardown breaks out.
   */
  lemma {:induction false} UnwindOrder<V, E>(pending: seq<Pending<V, E>>, o: OutcomeState<V, E>)
    ensures Unwind(pending, o).resumed <= Reverse(Indices(pending))
    ensures Unwind(pending, o).outcome.Ok? ==> Unwind(pending, o).resumed == Reverse(Indices(pending))
    ensures Unwind(pending, o).outcome.Err? ==> Unwind(pending, o).resumed != []
    decreases |pending|
  {
    if pending != [] {
      var n := |pending|;
      var p := pending[n - 1];
      IndicesPrefix(pending, n - 1);
      if p.resume(o).Finish? {
        UnwindOrder(pending[..n - 1], Finished(o, p.resume(o).forced));
      }
    }
  }

  /**
   * An exception still in the final outcome is the one captured before the
   * teardowns ran, in the very outcome they were given: only `force_result`
   * changes an outcome, and it clears the exception.
   */
  lemma {:induction false} UnwindKeepsOrForces<V, E>(pending: seq<Pending<V, E>>, o: OutcomeState<V, E>)
    ensures Unwind(pending, o).outcome.Ok? ==>
      Unwind(pending, o).outcome.value == o || Unwind(pending, o).outcome.value.excinfo.None?
    decreases |pending|
  {
    if pending != [] {
      var n := |pending|;
      var p := pending[n - 1];
      if p.resume(o).Finish? {
        UnwindKeepsOrForces(pending[..n - 1], Finished(o, p.resume(o).forced));
      }
    }
  }

  /**
   * All teardowns share one outcome: running `pre + post` runs `post` first,
   * and `pre` then sees the outcome exactly as `post` left it; if a teardown
   * of `post` breaks out, nothing of `pre` runs.
   */
  lemma {:induction false} UnwindSplit<V, E>(pre: seq<Pending<V, E>>, post: seq<Pending<V, E>>, o: OutcomeState<V, E>)
    ensures Unwind(pre + post, o)
         == (if Unwind(post, o).outcome.Err? then Unwind(post, o)
             else Then(Unwind(post, o).resumed, Unwind(pre, Unwind(post, o).outcome.value)))
    decreases |post|
  {
    if post == [] {
      assert pre + post == pre;
    } else {
      var n := |post|;
      var p := post[n - 1];
      assert (pre + post)[..|pre + post| - 1] == pre + post[..n - 1];
      if p.resume(o).Finish? {
        UnwindSplit(pre, post[..n - 1], Finished(o, p.resume(o).forced));
      }
    }
  }

  /**
   * A teardown that yields a second time makes the call fail with
   * `SecondYield`, naming that wrapper; the teardowns still queued behind it
   * are never resumed and the outcome is never returned.
   */
  lemma SecondYieldEscapes<V, E>(pre: seq<Pending<V, E>>, p: Pending<V, E>, post: seq<Pending<V, E>>, o: OutcomeState<V, E>)
    requires Unwind(post, o).outcome.Ok?
    requires p.resume(Unwind(post, o).outcome.value) == YieldAgain
    ensures Unwind(pre + [p] + post, o)
         == Unwound(Err(WrapFail(p.name, SecondYield)), Unwind(post, o).resumed + [p.index])
    ensures Finale(Unwind(pre + [p] + post, o)) == Err(WrapFail(p.name, SecondYield))
  {
    assert pre + [p] + post == pre + ([p] + post);
    UnwindSplit(pre, [p] + post, o);
    UnwindSplit([p], post, o);
    assert [p][..0] == [];
  }

  /** The usual teardown `outcome = yield; outcome.get_result()`: it re-raises whatever the outcome holds. */
  function ReRaising<V, E>(o: OutcomeState<V, E>): TeardownStep<V, E>
  {
    match ResultOf(o)
    case Ok(_) => Finish(None)
    case Err(e) => TeardownRaise(e)
  }

  /**
   * A teardown that calls `get_result` on an outcome holding an exception
   * lets that very exception (a `HookCallError` or a `DidNotYield` failure
   * included) leave the call; the teardowns queued behind it never run.
   * On an outcome without exception it leaves everything as it was.
   */
  lemma ReRaisingTeardownEscapes<V, E>(pre: seq<Pending<V, E>>, p: Pending<V, E>, post: seq<Pending<V, E>>, o: OutcomeState<V, E>)
    requires Unwind(post, o).outcome.Ok?
    requires p.resume(Unwind(post, o).outcome.value) == ReRaising(Unwind(post, o).outcome.value)
    ensures Unwind(post, o).outcome.value.excinfo.Some? ==>
      Unwind(pre + [p] + post, o)
      == Unwound(Err(Unwind(post, o).outcome.value.excinfo.value), Unwind(post, o).resumed + [p.index])
      && Finale(Unwind(pre + [p] + post, o)) == Err(Unwind(post, o).outcome.value.excinfo.value)
    ensures Unwind(post, o).outcome.value.excinfo.None? ==>
      Unwind(pre + [p] + post, o)
      == Then(Unwind(post, o).resumed + [p.index], Unwind(pre, Unwind(post, o).outcome.value))
  {
    assert pre + [p] + post == pre + ([p] + post);
    UnwindSplit(pre, [p] + post, o);
    UnwindSplit([p], post, o);
    assert [p][..0] == [];
  }

  /**
   * A `force_result(v)` in one teardown is what every later teardown sees, and,
   * when those leave it alone, what the call returns, with any captured
   * exception suppressed.
   */
  lemma ForcedResultReturned<V, E>(pre: seq<Pending<V, E>>, p: Pending<V, E>, post: seq<Pending<V, E>>,
                                   o: OutcomeState<V, E>, v: Value<V>)
    requires Unwind(post, o).outcome.Ok?
    requires p.resume(Unwind(post, o).outcome.value) == Finish(Some(v))
    requires Untouched(pre, Forced(Unwind(post, o).outcome.value, v))
    ensures Unwind(pre + [p] + post, o).outcome == Ok(OutcomeState(v, None))
    ensures Finale(Unwind(pre + [p] + post, o)) == Ok(v)
  {
    var o1 := Unwind(post, o).outcome.value;
    assert pre + [p] + post == pre + ([p] + post);
    UnwindSplit(pre, [p] + post, o);
    UnwindSplit([p], post, o);
    assert [p][..0] == [];
    UnwindUntouched(pre, Forced(o1, v));
  }

  /**
   * At the level of the whole call: an exception captured during the
   * traversal reaches the caller unless a teardown forced a result (or broke
   * out with an exception of its own).
   */
  lemma CapturedExceptionReachesCaller<V, E>(impls: seq<HookImpl<V, E>>, kwargs: map<string, V>, firstresult: bool)
    requires Traversed(impls, kwargs, firstresult).excinfo.Some?
    ensures HookCall(impls, kwargs, firstresult).Ok? ==>
      Unwinding(impls, kwargs, firstresult).outcome.Ok?
      && Unwinding(impls, kwargs, firstresult).outcome.value.excinfo.None?
    ensures HookCall(impls, kwargs, firstresult).Err? ==>
      Unwinding(impls, kwargs, firstresult).outcome.Err?
      || HookCall(impls, kwargs, firstresult).error == Traversed(impls, kwargs, firstresult).excinfo.value
    ensures var t := Traversed(impls, kwargs, firstresult);
      Untouched(t.teardowns, Initial(t, firstresult)) ==> HookCall(impls, kwargs, firstresult) == Err(t.excinfo.value)
  {
    var t := Traversed(impls, kwargs, firstresult);
    UnwindKeepsOrForces(t.teardowns, Initial(t, firstresult));
    if Untouched(t.teardowns, Initial(t, firstresult)) {
      UnwindUntouched(t.teardowns, Initial(t, firstresult));
    }
  }

  /** The teardowns of a whole call run in the reverse of the order their wrappers were set up. */
  lemma TeardownsReverseSetup<V, E>(impls: seq<HookImpl<V, E>>, kwargs: map<string, V>, firstresult: bool)
    ensures var t := Traversed(impls, kwargs, firstresult);
      Unwinding(impls, kwargs, firstresult).resumed <= Reverse(Indices(t.teardowns))
      && (Unwinding(impls, kwargs, firstresult).outcome.Ok? ==>
            Unwinding(impls, kwargs, firstresult).resumed == Reverse(Indices(t.teardowns)))
      && (forall k :: 0 <= k < |t.invoked| ==> t.invoked[k] < |impls|)
      && t.teardowns == QueuedAt(impls, kwargs, t.invoked)
  {
    var t := Traversed(impls, kwargs, firstresult);
    UnwindOrder(t.teardowns, Initial(t, firstresult));
    TraversalAccounts(impls, kwargs, firstresult);
  }
}
