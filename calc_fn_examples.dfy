/**
 * The concrete expectations of the repository's test suite, restated over
 * integer values: each lemma is one group of assertions of the tests.
 */
module CalcFnExamples {
  import opened Grouping
  import opened CalcFn

  /** The sum of all arguments; the tests' sum, sum3 and sum4 callables. */
  function SumOf(s: seq<int>): int
  {
    if |s| == 0 then 0 else s[0] + SumOf(s[1..])
  }

  function Power(base: int, exp: nat): int
  {
    if exp == 0 then 1 else base * Power(base, exp - 1)
  }

  /** PHP's pow on two integers; a negative exponent (a float in PHP) gives 0 here. */
  function Pow(s: seq<int>): int
  {
    if |s| == 2 && s[1] >= 0 then Power(s[0], s[1]) else 0
  }

  function Square(s: seq<int>): int
  {
    if |s| > 0 then s[0] * s[0] else 0
  }

  function GetOne(s: seq<int>): int
  {
    1
  }

  /** `calc(nums[0])(nums[1])...(arg)`. */
  function Chain(nums: seq<int>, arg: Arg<int>): Result<Outcome<int>>
    requires |nums| > 0
  {
    Call(Feed(Calc(Number(nums[0])), nums[1..]), arg)
  }

  lemma ChainIsApply(nums: seq<int>, arg: Arg<int>)
    requires |nums| > 0
    ensures Chain(nums, arg) == Apply(nums, arg)
  {
    assert [] + [nums[0]] + nums[1..] == nums;
  }

  /**
   * A chain of calls whose values are the given groups concatenated (a
   * first group of reqNum, then groups of reqNum - 1) passes the checks and
   * returns the fold of f over those groups.
   */
  lemma GroupedChain(gs: seq<seq<int>>, reqNum: nat, f: seq<int> -> int, nums: seq<int>)
    requires reqNum >= 2 && |gs| > 0 && |gs[0]| == reqNum
    requires forall i :: 1 <= i < |gs| ==> |gs[i]| == reqNum - 1
    requires Flatten(gs) == nums
    ensures Chain(nums, Callable(Callback(reqNum, f))) == Ok(Returned(FoldGroups(f, gs)))
  {
    FlattenLength(gs[1..], reqNum - 1);
    assert |nums| == FittingCount(reqNum, |gs| - 1);
    AcceptedIff(reqNum, |nums|);
    FlattenGroups(gs, reqNum);
    ChainIsApply(nums, Callable(Callback(reqNum, f)));
  }

  /** Values the test suite rejects or accepts, as arguments of the entry point. */
  lemma ArgumentKinds(x: int)
    ensures Calc<int>(Other).error.Code() == 4
    ensures Calc(Number(x)).Ok? && Calc(Number(x)).value.Accumulator?
  {
  }

  /** A one-parameter callable: calc(2)(square) is 4, calc(1)(square) is 1, and both misuses give code 2. */
  lemma SingleParameterCallback()
    ensures Chain([2], Callable(Callback(1, Square))) == Ok(Returned(4))
    ensures Chain([1], Callable(Callback(1, Square))) == Ok(Returned(1))
    ensures Calc(Callable(Callback(1, Square))).error.Code() == 2
    ensures Chain([1, 2], Callable(Callback(1, Square))).error.Code() == 2
  {
    ChainIsApply([2], Callable(Callback(1, Square)));
    ChainIsApply([1], Callable(Callback(1, Square)));
    ChainIsApply([1, 2], Callable(Callback(1, Square)));
  }

  /** A callable with no parameter gives code 5 with and without values. */
  lemma ZeroParameterCallback()
    ensures Calc(Callable(Callback(0, GetOne))).error.Code() == 5
    ensures Chain([1, 2, 3], Callable(Callback(0, GetOne))).error.Code() == 5
  {
    ChainIsApply([1, 2, 3], Callable(Callback(0, GetOne)));
  }

  /** sum3 after two values fails with code 1. */
  lemma SumThreeTooFew()
    ensures Chain([1, 2], Callable(Callback(3, SumOf))).error.Code() == 1
  {
    ChainIsApply([1, 2], Callable(Callback(3, SumOf)));
  }

  /** sum3 after four values fails with code 0: four is not 3 + 2j. */
  lemma SumThreeNotMultiple()
    ensures Chain([1, 2, 3, 4], Callable(Callback(3, SumOf))).error.Code() == 0
  {
    ChainIsApply([1, 2, 3, 4], Callable(Callback(3, SumOf)));
  }

  /** sum4 after five or six values fails with code 0: neither is 4 + 3j. */
  lemma SumFourNotMultiple()
    ensures Chain([1, 2, 3, 4, 2], Callable(Callback(4, SumOf))).error.Code() == 0
    ensures Chain([1, 2, 3, 4, 2, 1], Callable(Callback(4, SumOf))).error.Code() == 0
  {
    ChainIsApply([1, 2, 3, 4, 2], Callable(Callback(4, SumOf)));
    ChainIsApply([1, 2, 3, 4, 2, 1], Callable(Callback(4, SumOf)));
  }

  /** sum3 after five values and sum4 after seven values are accepted. */
  lemma FittingCountsAccepted()
    ensures Chain([1, 2, 3, 4, 5], Callable(Callback(3, SumOf))).Ok?
    ensures Chain([1, 2, 3, 4, 5, 1, 1], Callable(Callback(4, SumOf))).Ok?
  {
    ChainIsApply([1, 2, 3, 4, 5], Callable(Callback(3, SumOf)));
    ChainIsApply([1, 2, 3, 4, 5, 1, 1], Callable(Callback(4, SumOf)));
  }

  /** sum over 5, 3, 2 is sum(sum(5, 3), 2) = 10; over 1, 2 it is 3. */
  lemma SumTwoResults()
    ensures Chain([5, 3, 2], Callable(Callback(2, SumOf))) == Ok(Returned(10))
    ensures Chain([1, 2], Callable(Callback(2, SumOf))) == Ok(Returned(3))
  {
    GroupedChain([[5, 3], [2]], 2, SumOf, [5, 3, 2]);
    GroupedChain([[1, 2]], 2, SumOf, [1, 2]);
  }

  /** pow over 2, 3 is 8; over 2, 3, 2 it is pow(pow(2, 3), 2) = 64. */
  lemma PowResults()
    ensures Chain([2, 3], Callable(Callback(2, Pow))) == Ok(Returned(8))
    ensures Chain([2, 3, 2], Callable(Callback(2, Pow))) == Ok(Returned(64))
  {
    GroupedChain([[2, 3]], 2, Pow, [2, 3]);
    GroupedChain([[2, 3], [2]], 2, Pow, [2, 3, 2]);
    assert Power(8, 2) == 64;
  }

  /** sum3 over 1, 2, 3, 4, 5 is sum3(sum3(1, 2, 3), 4, 5) = 15. */
  lemma SumThreeOfFive()
    ensures Chain([1, 2, 3, 4, 5], Callable(Callback(3, SumOf))) == Ok(Returned(15))
  {
    GroupedChain([[1, 2, 3], [4, 5]], 3, SumOf, [1, 2, 3, 4, 5]);
  }

  /** sum3 over exactly three values is called once. */
  lemma SumThreeOfThree()
    ensures Chain([1, 2, 3], Callable(Callback(3, SumOf))) == Ok(Returned(6))
  {
    GroupedChain([[1, 2, 3]], 3, SumOf, [1, 2, 3]);
  }

  /** sum3 over seven values is called three times. */
  lemma SumThreeOfSeven()
    ensures Chain([1, 1, 1, 1, 1, 2, 2], Callable(Callback(3, SumOf))) == Ok(Returned(9))
  {
    GroupedChain([[1, 1, 1], [1, 1], [2, 2]], 3, SumOf, [1, 1, 1, 1, 1, 2, 2]);
  }

  /** sum4 over seven values is called twice. */
  lemma SumFourOfSeven()
    ensures Chain([1, 1, 1, 1, 2, 2, 2], Callable(Callback(4, SumOf))) == Ok(Returned(10))
  {
    GroupedChain([[1, 1, 1, 1], [2, 2, 2]], 4, SumOf, [1, 1, 1, 1, 2, 2, 2]);
  }

  /**
   * Saved intermediate accumulators: calc(1)(2) and calc(2)(3) stay usable
   * after each other's calls, and calc(1)(1)(1) extended by 1, 2, 2, 2 gives 10 on sum4.
   */
  lemma SavedAccumulators()
    ensures Call(Feed(Calc(Number(1)), [2]), Callable(Callback(2, Pow))) == Ok(Returned(1))
    ensures Call(Feed(Calc(Number(2)), [3]), Callable(Callback(2, Pow))) == Ok(Returned(8))
    ensures Call(Feed(Feed(Calc(Number(1)), [1, 1]), [1, 2, 2, 2]), Callable(Callback(4, SumOf)))
            == Ok(Returned(10))
  {
    assert [] + [1] == [1] && [1] + [1, 1] == [1, 1, 1];
    var v1 := Feed(Calc(Number(1)), [1, 1]);
    assert v1 == Ok(Accumulator([1, 1, 1]));
    assert [1, 1, 1] + [1, 2, 2, 2] == [1, 1, 1, 1, 2, 2, 2];
    SumFourOfSeven();
    ChainIsApply([1, 1, 1, 1, 2, 2, 2], Callable(Callback(4, SumOf)));
    PowResults();
    GroupedChain([[1, 2]], 2, Pow, [1, 2]);
    ChainIsApply([2, 3], Callable(Callback(2, Pow)));
  }
}
