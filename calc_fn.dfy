/**
 * The curried accumulator `calc`: each call either appends a number to the
 * values collected so far and hands back a new accumulator, or takes a
 * callable, checks its required-parameter count against the number of
 * collected values and dispatches the values to it in groups.
 *
 * The accumulator closure is modelled by the value sequence it closes over;
 * PHP's by-value array copy makes that sequence immutable once returned.
 */
module CalcFn {
  import opened Grouping

  /**
   * A callable as `calc` sees it: its required-parameter count and the
   * function it computes, which is only ever applied to reqNum arguments.
   */
  datatype Callback<!V> = Callback(reqNum: nat, f: seq<V> -> V)

  /** The argument of one call: a number, a callable, or anything else. */
  datatype Arg<!V> = Number(n: V) | Callable(cb: Callback<V>) | Other

  /** The exceptions `calc` raises; `Code` is the exception code. */
  datatype Error =
    | CountNotMultiple(reqNum: nat)   // "count of args must be a multiple of reqNum - 1"
    | NotEnoughValues(reqNum: nat)    // "you must pass at least reqNum numeric values"
    | SingleParamNeedsOneValue        // one-parameter callable after other than one number
    | NotNumberOrCallable             // argument is neither a number nor a callable
    | NoRequiredParams                // callable with no required parameter
  {
    function Code(): nat
    {
      match this
      case CountNotMultiple(_) => 0
      case NotEnoughValues(_) => 1
      case SingleParamNeedsOneValue => 2
      case NotNumberOrCallable => 4
      case NoRequiredParams => 5
    }
  }

  /** What a successful call gives back: a new accumulator or the callable's result. */
  datatype Outcome<V> = Accumulator(values: seq<V>) | Returned(value: V)

  datatype Result<T> = Ok(value: T) | Err(error: Error)

  datatype Option<T> = None | Some(value: T)

  /**
   * The checks made on a callable of reqNum required parameters when valNum
   * values have been accumulated, in the order the source makes them; None
   * when dispatch may go ahead.
   */
  function Validate(reqNum: nat, valNum: nat): (r: Option<Error>)
    // argument-kind errors are not raised here
    ensures r.Some? ==> r.value != NotNumberOrCallable
    // a dispatch that passes never lacks values
    ensures r == None ==> 1 <= reqNum <= valNum
  {
    if reqNum == 0 then Some(NoRequiredParams)
    else if reqNum == 1 then
      if valNum != 1 then Some(SingleParamNeedsOneValue) else None
    else if reqNum > valNum then Some(NotEnoughValues(reqNum))
    else if (valNum - 1) % (reqNum - 1) != 0 then Some(CountNotMultiple(reqNum))
    else None
  }

  /** One call of the accumulator that holds `values`, with argument `arg`. */
  function Apply<V>(values: seq<V>, arg: Arg<V>): (r: Result<Outcome<V>>)
    // only a number yields a new accumulator, and that one keeps the old values in front
    ensures r.Ok? && r.value.Accumulator? <==> arg.Number?
    ensures r.Ok? && r.value.Accumulator? ==>
              |r.value.values| == |values| + 1 && r.value.values[..|values|] == values
    // a call fails exactly on a non-number non-callable, or on a callable validation rejects
    ensures r.Err? <==> arg.Other? || (arg.Callable? && Validate(arg.cb.reqNum, |values|).Some?)
  {
    match arg
    case Number(v) => Ok(Accumulator(values + [v]))
    case Other => Err(NotNumberOrCallable)
    case Callable(cb) =>
      match Validate(cb.reqNum, |values|)
      case Some(e) => Err(e)
      case None =>
        if cb.reqNum == 1 then Ok(Returned(cb.f([values[0]])))
        else Ok(Returned(FoldGroups(cb.f, Groups(values, cb.reqNum))))
  }

  /** The arguments of the calls that `Apply(values, arg)` makes of the callable, in order. */
  function Invocations<V>(values: seq<V>, arg: Arg<V>): (r: seq<seq<V>>)
    // the callable is called at least once exactly when the call returns its result
    ensures r != [] <==> Apply(values, arg).Ok? && Apply(values, arg).value.Returned?
  {
    match arg
    case Callable(cb) =>
      if Validate(cb.reqNum, |values|).Some? then []
      else if cb.reqNum == 1 then [[values[0]]]
      else
        GroupedCallLog(cb.f, values, cb.reqNum);
        CallLog(cb.f, Groups(values, cb.reqNum))
    case _ => []
  }

  /** The entry point: the accumulator with no values yet. */
  function Calc<V>(arg: Arg<V>): (r: Result<Outcome<V>>)
    // the entry point never hands back a callable's result, and never calls one
    ensures r.Ok? ==> r.value.Accumulator?
    ensures Invocations([], arg) == []
  {
    Apply([], arg)
  }

  /** Calling an accumulator that an earlier call returned. */
  function Call<V>(r: Result<Outcome<V>>, arg: Arg<V>): (r': Result<Outcome<V>>)
    requires r.Ok? && r.value.Accumulator?
    // a number extends the saved accumulator's values by one, which stay in front
    ensures arg.Number? ==> r'.Ok? && r'.value.Accumulator? && |r'.value.values| == |r.value.values| + 1
    ensures arg.Number? ==> r'.value.values[..|r.value.values|] == r.value.values
  {
    Apply(r.value.values, arg)
  }

  /** Calling an accumulator with each of `nums` in turn. */
  function Feed<V>(r: Result<Outcome<V>>, nums: seq<V>): (r': Result<Outcome<V>>)
    requires r.Ok? && r.value.Accumulator?
    ensures r' == Ok(Accumulator(r.value.values + nums))
    decreases |nums|
  {
    if |nums| == 0 then
      assert r.value.values + nums == r.value.values;
      r
    else
      var next := Call(r, Number(nums[0]));
      assert next.value.values + nums[1..] == r.value.values + nums;
      Feed(next, nums[1..])
  }

  // ---------------------------------------------------------------------
  // The accumulator as the source runs it.

  /**
   * The grouped dispatch loop: splice the first reqNum values off, call the
   * callable, and while values remain call it again on the previous result
   * followed by the next reqNum - 1 spliced values. `calls` lists the
   * argument lists of the calls in order.
   */
  method RunGroups<V(0)>(cb: Callback<V>, values: seq<V>) returns (result: V, calls: seq<seq<V>>)
    requires cb.reqNum >= 2 && Validate(cb.reqNum, |values|) == None
    ensures result == FoldGroups(cb.f, Groups(values, cb.reqNum))
    ensures calls == CallLog(cb.f, Groups(values, cb.reqNum))
    ensures |calls| == 1 + (|values| - cb.reqNum) / (cb.reqNum - 1)
    ensures forall i :: 0 <= i < |calls| ==> |calls[i]| == cb.reqNum
    ensures result == cb.f(calls[|calls| - 1])
  {
    var reqNum := cb.reqNum;
    ghost var gs := Groups(values, reqNum);
    var rest := values;
    var toCallback;
    // like PHP's $result, unassigned until the loop's first call
    result := *;
    toCallback, rest := Splice(rest, reqNum).0, Splice(rest, reqNum).1;
    ghost var todo := Chunks(rest, reqNum - 1);
    calls := [];
    while |toCallback| > 0
      invariant todo == Chunks(rest, reqNum - 1)
      invariant |toCallback| > 0 ==>
        calls + [toCallback] + LogFrom(cb.f, cb.f(toCallback), todo) == CallLog(cb.f, gs)
        && FoldFrom(cb.f, cb.f(toCallback), todo) == FoldGroups(cb.f, gs)
      invariant |toCallback| == 0 ==> calls == CallLog(cb.f, gs) && result == FoldGroups(cb.f, gs)
      decreases |rest|, |toCallback|
    {
      ghost var before := calls + [toCallback];
      result := cb.f(toCallback);
      calls := calls + [toCallback];
      if |rest| > 0 {
        ChunksStep(rest, reqNum - 1);
        var taken;
        taken, rest := Splice(rest, reqNum - 1).0, Splice(rest, reqNum - 1).1;
        FoldStep(cb.f, result, todo);
        toCallback := [result] + taken;
        todo := todo[1..];
        assert before + ([toCallback] + LogFrom(cb.f, cb.f(toCallback), todo))
            == calls + [toCallback] + LogFrom(cb.f, cb.f(toCallback), todo);
      } else {
        toCallback := [];
      }
    }
    assert calls == CallLog(cb.f, gs) && result == FoldGroups(cb.f, gs);
    assert (|values| - 1) % (reqNum - 1) == 0;
    GroupedCallLog(cb.f, values, reqNum);
  }

  /**
   * One call of the accumulator holding `values`: classify the argument,
   * validate a callable, and dispatch. `calls` lists the argument lists of
   * the callable's invocations.
   */
  method Invoke<V(0)>(values: seq<V>, arg: Arg<V>) returns (r: Result<Outcome<V>>, calls: seq<seq<V>>)
    ensures r == Apply(values, arg)
    ensures calls == Invocations(values, arg)
  {
    calls := [];
    match arg {
      case Number(v) =>
        r := Ok(Accumulator(values + [v]));
      case Other =>
        r := Err(NotNumberOrCallable);
      case Callable(cb) =>
        var check := Validate(cb.reqNum, |values|);
        if check.Some? {
          r := Err(check.value);
        } else if cb.reqNum == 1 {
          calls := [[values[0]]];
          r := Ok(Returned(cb.f([values[0]])));
        } else {
          var result;
          result, calls := RunGroups(cb, values);
          r := Ok(Returned(result));
        }
    }
  }

  // ---------------------------------------------------------------------
  // Properties.

  /**
   * A saved accumulator can be extended along any number of branches: what
   * a branch finally computes depends only on the saved values and that
   * branch's own numbers. Branches cannot disturb each other because an
   * accumulator is a value: building another branch first changes nothing.
   */
  lemma BranchesIndependent<V>(saved: Result<Outcome<V>>, xs: seq<V>, a: Arg<V>)
    requires saved.Ok? && saved.value.Accumulator?
    ensures Call(Feed(saved, xs), a) == Apply(saved.value.values + xs, a)
  {
  }

  /** A number never fails and never calls anything: it yields a new, longer accumulator. */
  lemma NumberAppends<V>(values: seq<V>, v: V)
    ensures Apply(values, Number(v)) == Ok(Accumulator(values + [v]))
    ensures Invocations(values, Number(v)) == []
  {
  }

  /** Anything that is neither a number nor a callable fails with code 4. */
  lemma OtherRejected<V>(values: seq<V>)
    ensures Apply(values, Other) == Err(NotNumberOrCallable)
    ensures Apply(values, Other).error.Code() == 4
  {
  }

  /** A callable with no required parameter fails with code 5, however many values there are. */
  lemma ZeroArityRejected<V>(values: seq<V>, cb: Callback<V>)
    requires cb.reqNum == 0
    ensures Apply(values, Callable(cb)) == Err(NoRequiredParams)
    ensures Apply(values, Callable(cb)).error.Code() == 5
  {
  }

  /** A one-parameter callable succeeds exactly after one value, on that value; otherwise code 2. */
  lemma SingleArity<V>(values: seq<V>, cb: Callback<V>)
    requires cb.reqNum == 1
    ensures Apply(values, Callable(cb)).Ok? <==> |values| == 1
    ensures |values| == 1 ==> Apply(values, Callable(cb)) == Ok(Returned(cb.f([values[0]])))
    ensures |values| == 1 ==> Invocations(values, Callable(cb)) == [values]
    ensures |values| != 1 ==> Apply(values, Callable(cb)) == Err(SingleParamNeedsOneValue)
  {
    if |values| == 1 {
      assert values == [values[0]];
    }
  }

  /**
   * A callable of two or more required parameters: too few values fail with
   * code 1; otherwise a count that is not reqNum plus whole groups of
   * reqNum - 1 fails with code 0; otherwise the result is the left fold of
   * the callable over the groups.
   */
  lemma GroupedArity<V>(values: seq<V>, cb: Callback<V>)
    requires cb.reqNum >= 2
    ensures |values| < cb.reqNum ==> Apply(values, Callable(cb)) == Err(NotEnoughValues(cb.reqNum))
    ensures |values| >= cb.reqNum && !(exists j: nat :: |values| == FittingCount(cb.reqNum, j)) ==>
              Apply(values, Callable(cb)) == Err(CountNotMultiple(cb.reqNum))
    ensures (exists j: nat :: |values| == FittingCount(cb.reqNum, j)) ==>
              Apply(values, Callable(cb)) == Ok(Returned(FoldGroups(cb.f, Groups(values, cb.reqNum))))
  {
    FitsIff(|values|, cb.reqNum);
  }

  /**
   * Dispatch is accepted exactly for one value and a one-parameter callable,
   * or for reqNum >= 2 and a count of reqNum plus whole groups of reqNum - 1.
   */
  lemma {:induction false} AcceptedIff(reqNum: nat, valNum: nat)
    ensures Validate(reqNum, valNum) == None <==>
              (reqNum == 1 && valNum == 1)
              || (reqNum >= 2 && exists j: nat :: valNum == FittingCount(reqNum, j))
  {
    if reqNum >= 2 {
      FitsIff(valNum, reqNum);
    }
  }

  /** A failed call and a number call invoke the callable zero times. */
  lemma NoCallsUnlessDispatched<V>(values: seq<V>, arg: Arg<V>)
    ensures (Apply(values, arg).Err? || Apply(values, arg).value.Accumulator?) ==>
              Invocations(values, arg) == []
  {
  }

  /**
   * A successful dispatch calls the callable 1 + (valNum - reqNum) / (reqNum - 1)
   * times (once for a one-parameter callable), always with exactly reqNum
   * arguments; the first call gets the first reqNum values, each later one the
   * previous result and the next reqNum - 1 values, every value is passed
   * exactly once and in order, and the result is that of the last call.
   */
  lemma DispatchedCalls<V>(values: seq<V>, cb: Callback<V>)
    requires Apply(values, Callable(cb)).Ok?
    ensures var calls := Invocations(values, Callable(cb));
      && |calls| == (if cb.reqNum == 1 then 1 else 1 + (|values| - cb.reqNum) / (cb.reqNum - 1))
      && (forall i :: 0 <= i < |calls| ==> |calls[i]| == cb.reqNum)
      && calls[0] == values[..cb.reqNum]
      && (forall i :: 1 <= i < |calls| ==> calls[i][0] == cb.f(calls[i - 1]))
      && calls[0] + Flatten(Tails(calls[1..])) == values
      && Apply(values, Callable(cb)) == Ok(Returned(cb.f(calls[|calls| - 1])))
  {
    var r := cb.reqNum;
    if r >= 2 {
      var gs := Groups(values, r);
      var calls := Invocations(values, Callable(cb));
      GroupsExact(values, r);
      GroupsPartition(values, r);
      GroupedCallLog(cb.f, values, r);
      CallLogShape(cb.f, gs);
      assert calls == CallLog(cb.f, gs);
      assert Tails(calls[1..]) == gs[1..] by {
        forall i | 0 <= i < |gs| - 1 ensures Tails(calls[1..])[i] == gs[1..][i] {
          assert calls[1..][i] == [cb.f(calls[i])] + gs[i + 1];
        }
      }
      assert gs == [gs[0]] + gs[1..];
    } else {
      assert values == values[..1];
    }
  }

  /** The entry point starts from no values: a number gives a one-value accumulator, a callable always fails. */
  lemma CalcEntry<V>(arg: Arg<V>)
    ensures arg.Number? ==> Calc(arg) == Ok(Accumulator([arg.n]))
    ensures arg.Callable? ==> Calc(arg).Err?
    ensures arg.Callable? && arg.cb.reqNum >= 2 ==> Calc(arg) == Err(NotEnoughValues(arg.cb.reqNum))
  {
    if arg.Number? {
      assert [] + [arg.n] == [arg.n];
    }
  }
}
