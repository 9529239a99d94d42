/**
 * Concrete hook calls: implementation values are integers, exceptions are
 * strings, and implementations require no arguments unless stated.
 */
module CallLoopScenarios {
  import opened Wrappers
  import opened Outcomes
  import opened CallLoop
  import opened CallLoopProperties

  function Returning(name: string, v: int): HookImpl<int, string>
  {
    HookImpl(name, [], Plain(args => Return(Some(v))))
  }

  /** A plain implementation that requires the arguments `argnames` and returns `v`. */
  function Needing(name: string, argnames: seq<string>, v: int): HookImpl<int, string>
  {
    HookImpl(name, argnames, Plain(args => Return(Some(v))))
  }

  function Raising(name: string, e: string): HookImpl<int, string>
  {
    HookImpl(name, [], Plain(args => Raise(Raised(e))))
  }

  function Wrapping(name: string, forced: Option<Value<int>>): HookImpl<int, string>
  {
    HookImpl(name, [], HookWrapper(args => Yielded(o => Finish(forced))))
  }

  /** `[A(wrapper), B -> 1, C -> 2]`: C is called before B, and the call gives `[2, 1]`. */
  lemma CollectsAll()
    ensures Traversed([Wrapping("A", None), Returning("B", 1), Returning("C", 2)], map[], false).invoked == [2, 1, 0]
    ensures HookCall([Wrapping("A", None), Returning("B", 1), Returning("C", 2)], map[], false) == Ok(Many([2, 1]))
  {
    var t := Traversed([Wrapping("A", None), Returning("B", 1), Returning("C", 2)], map[], false);
    assert t.results == [2, 1] && t.excinfo == None && |t.teardowns| == 1;
    assert t.teardowns[..0] == [];
  }

  /** The same hook with firstresult: C's value ends the call; B is not called and A is never set up. */
  lemma FirstResultSkipsEarlierRegistrations()
    ensures Traversed([Wrapping("A", None), Returning("B", 1), Returning("C", 2)], map[], true).invoked == [2]
    ensures Traversed([Wrapping("A", None), Returning("B", 1), Returning("C", 2)], map[], true).teardowns == []
    ensures HookCall([Wrapping("A", None), Returning("B", 1), Returning("C", 2)], map[], true) == Ok(Single(Some(2)))
  {
  }

  /**
   * B raises; the wrapper A, given last to the loop and so set up first,
   * forces 99 in its teardown, and no exception reaches the caller.
   */
  lemma ForceResultSuppressesException()
    ensures HookCall([Raising("B", "x"), Returning("C", 2), Wrapping("A", Some(Single(Some(99))))], map[], false)
         == Ok(Single(Some(99)))
  {
    var t := Traversed([Raising("B", "x"), Returning("C", 2), Wrapping("A", Some(Single(Some(99))))], map[], false);
    assert t.excinfo == Some(Raised("x")) && |t.teardowns| == 1;
    assert t.teardowns[..0] == [];
  }

  /**
   * The same wrapper given first to the loop is processed last: B's exception
   * ends the traversal before A is set up, so A never forces anything and the
   * exception reaches the caller.
   */
  lemma WrapperGivenFirstIsNeverSetUp()
    ensures Traversed([Wrapping("A", Some(Single(Some(99)))), Raising("B", "x"), Returning("C", 2)], map[], false).invoked
         == [2, 1]
    ensures HookCall([Wrapping("A", Some(Single(Some(99)))), Raising("B", "x"), Returning("C", 2)], map[], false)
         == Err(Raised("x"))
  {
  }

  /** B raises and wrapper A, given last, leaves the outcome alone: B's exception reaches the caller. */
  lemma ExceptionReachesCaller()
    ensures HookCall([Raising("B", "x"), Wrapping("A", None)], map[], false) == Err(Raised("x"))
  {
    var t := Traversed([Raising("B", "x"), Wrapping("A", None)], map[], false);
    assert t.excinfo == Some(Raised("x")) && |t.teardowns| == 1;
    assert t.teardowns[..0] == [];
  }

  /**
   * `[B needing "x", A re-raising through get_result, W forcing 7]` with no
   * arguments: W and A are set up, B's `HookCallError` is captured, A's
   * teardown re-raises it, and W's teardown is never resumed.
   */
  lemma TeardownReRaisesHookCallError()
    ensures Traversed([Needing("B", ["x"], 1), HookImpl("A", [], HookWrapper(args => Yielded(ReRaising))),
                       Wrapping("W", Some(Single(Some(7))))], map[], false).invoked == [2, 1]
    ensures Unwinding([Needing("B", ["x"], 1), HookImpl("A", [], HookWrapper(args => Yielded(ReRaising))),
                       Wrapping("W", Some(Single(Some(7))))], map[], false).resumed == [1]
    ensures HookCall([Needing("B", ["x"], 1), HookImpl("A", [], HookWrapper(args => Yielded(ReRaising))),
                      Wrapping("W", Some(Single(Some(7))))], map[], false) == Err(HookCallError("x"))
  {
  }

  /** A teardown that forces nothing but raises replaces the captured exception with its own. */
  lemma TeardownExceptionReplacesCaptured()
    ensures HookCall([Raising("B", "x"), HookImpl("A", [], HookWrapper(args => Yielded(o => TeardownRaise(Raised("y")))))],
                     map[], false) == Err(Raised("y"))
  {
  }

  /** Of two forcing teardowns the one resumed last wins: W2, given last, is set up first and torn down last. */
  lemma LaterForceWins()
    ensures HookCall([Wrapping("W1", Some(Single(Some(7)))), Wrapping("W2", Some(Single(Some(8))))], map[], false)
         == Ok(Single(Some(8)))
  {
    var t := Traversed([Wrapping("W1", Some(Single(Some(7)))), Wrapping("W2", Some(Single(Some(8))))], map[], false);
    assert t.excinfo == None && |t.teardowns| == 2 && t.teardowns[1].name == "W1";
    var o := Initial(t, false);
    assert t.teardowns[..2] == t.teardowns && t.teardowns[..0] == [];
    UnwindLast(t.teardowns, 2, o);
    UnwindLast(t.teardowns, 1, Forced(o, Single(Some(7))));
  }

  /** A missing argument: `HookCallError` names the first missing name, and the implementation is not called. */
  lemma MissingArgumentReported()
    ensures Traversed([Needing("B", ["x", "y", "z"], 1)], map["x" := 5], false).invoked == []
    ensures HookCall([Needing("B", ["x", "y", "z"], 1)], map["x" := 5], false)
         == Err(HookCallError("y"))
  {
  }

  /** A `HookCallError` is captured like any exception, so a wrapper's forced result hides it. */
  lemma MissingArgumentSuppressedByWrapper()
    ensures HookCall([Needing("B", ["x"], 1), Wrapping("A", Some(Many([])))], map[], false)
         == Ok(Many([]))
  {
    var t := Traversed([Needing("B", ["x"], 1), Wrapping("A", Some(Many([])))], map[], false);
    assert t.excinfo == Some(HookCallError("x")) && |t.teardowns| == 1;
    assert t.teardowns[..0] == [];
  }

  /** A wrapper registered last that does not yield fails the call before any plain implementation runs. */
  lemma WrapperThatDoesNotYield()
    ensures Traversed([Returning("B", 1), HookImpl("A", [], HookWrapper(args => Stopped))], map[], false).invoked == [1]
    ensures HookCall([Returning("B", 1), HookImpl("A", [], HookWrapper(args => Stopped))], map[], false)
         == Err(WrapFail("A", DidNotYield))
  {
  }

  /** A teardown that yields again fails the call with `SecondYield`, whatever the outcome held. */
  lemma WrapperThatYieldsTwice()
    ensures HookCall([HookImpl("A", [], HookWrapper(args => Yielded(o => YieldAgain))), Returning("B", 1)], map[], false)
         == Err(WrapFail("A", SecondYield))
  {
  }
}
