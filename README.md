# calc-fn: a Dafny model of the curried accumulator `calc`

`calc` (src/calc_fn.php) is a curried accumulator. A chain of
single-argument calls such as `calc(1)(2)(3)(4)(5)($sum3)` first collects
numbers. Then it hands them to a callable according to the callable's
number of required parameters (`reqNum`):

- A number is appended to a copy of the collected values. The call
  returns a new accumulator over the longer sequence.
- An argument that is neither a number nor a callable raises error code 4.
- A callable with no required parameter raises code 5.
- A one-parameter callable needs exactly one collected value (else
  code 2) and is called on it.
- A callable with `reqNum >= 2` needs at least `reqNum` values (else
  code 1). It also needs `(valNum - 1) % (reqNum - 1) == 0` (else code 0).
  The values are then dispatched in groups: the first `reqNum` values
  are spliced off and passed to the callable. While values remain, the
  previous result and the next `reqNum - 1` spliced values are passed
  to it again. The last result is returned.

The model has three modules:

- `Grouping` (grouping.dfy) holds the grouping and the fold as functions
  (`Splice`, which is `array_splice($s, 0, $n)`; `Chunks`; `Groups`;
  `FoldGroups`; the call log `CallLog`), with lemmas about them.
- `CalcFn` (calc_fn.dfy) holds the argument, callable, error and
  outcome datatypes. It has the validation `Validate`, with the checks
  in the source's order. `Apply` specifies one call of the accumulator,
  and `Invocations` lists the calls `Apply` makes of the callable.
  Two methods run as the source runs: `Invoke` is the body of the
  `$internal` closure, and `RunGroups` is its `array_splice`/`while`
  loop. Both are proved against `Apply` and the grouping functions.
  Lemmas state the error precedence, the arithmetic acceptance
  condition, the number and shape of the callable's invocations, and
  the independence of saved accumulators.
- `CalcFnExamples` (calc_fn_examples.dfy) restates the test suite's
  concrete expectations over integers.

The accumulator closure is represented by the value sequence it closes
over (`Outcome.Accumulator(values)`). PHP arrays are copied by value, so
an accumulator's sequence never changes after it is returned. A callable
is represented by its required-parameter count and a function
`f: seq<V> -> V` (`Callback(reqNum, f)`). The model only applies `f` to
argument lists of length `reqNum`. Both methods return the callable's
invocations as an out-parameter `calls`: the argument lists, in call order.
This makes the number and content of the calls part of the stated
behaviour.

The multiple check in the code is `(valNum - 1) % (reqNum - 1) == 0`.
An equivalent form, once `valNum >= reqNum`, is
`(valNum - reqNum) mod (reqNum - 1) == 0`. `FitsIff` relates the code's
form to "`valNum` is `reqNum + j * (reqNum - 1)` for some `j >= 0`". The
model follows the code.

## Model

| member | source | states |
|---|---|---|
| Grouping.Splice | src/calc_fn.php:81 | the spliced-off part has min(n, length) elements and, followed by what stays, is the original sequence |
| Grouping.ChunksFlatten | src/calc_fn.php:81-92 | repeated splicing in pieces of k loses, duplicates and reorders no value |
| Grouping.ChunksExact | src/calc_fn.php:74-92 | when k divides the length, every piece has exactly k values and there are length / k pieces |
| Grouping.FlattenChunks | src/calc_fn.php:81-92 | full pieces of k, concatenated and spliced again, give back the same pieces (round trip with ChunksFlatten) |
| Grouping.FlattenLength | src/calc_fn.php:81-92 | pieces of k values each concatenate to exactly (number of pieces) * k values |
| Grouping.FlattenGroups | src/calc_fn.php:81-92 | a group of reqNum followed by groups of reqNum - 1, concatenated, is grouped back into exactly those groups |
| Grouping.GroupsPartition | src/calc_fn.php:81-92 | the groups concatenate to the accumulated values, and the first group has min(reqNum, valNum) values |
| Grouping.GroupsExact | src/calc_fn.php:68-92 | after both count checks pass, the first group has reqNum values, every later one reqNum - 1, and there are 1 + (valNum - reqNum) / (reqNum - 1) groups |
| Grouping.FitsIff | src/calc_fn.php:68-78 | valNum >= reqNum and (valNum - 1) % (reqNum - 1) == 0 hold exactly when valNum = reqNum + j * (reqNum - 1) for some j >= 0 |
| Grouping.LogFromShape | src/calc_fn.php:82-92 | the chained calls are one per group; call i gets the previous call's result followed by group i; the fold's value is the last call's result |
| Grouping.CallLogShape | src/calc_fn.php:81-94 | the first call gets the first group alone, and each later call gets the previous result then its group; the result is the last call's value |
| Grouping.GroupedCallLog | src/calc_fn.php:74-94 | for a count that passes the checks, the callable is called 1 + (valNum - reqNum) / (reqNum - 1) times, always with exactly reqNum arguments |
| CalcFn.Validate | src/calc_fn.php:52-78 | the definition of the checks, in the source's order; its contract says validation never raises code 4 and that a passing count is at least reqNum >= 1; the precedence and acceptance are stated by AcceptedIff, ZeroArityRejected, SingleArity and GroupedArity |
| CalcFn.Apply | src/calc_fn.php:25-95 | the definition of one call; its contract says only a number yields an accumulator, which keeps the old values in front and adds one, and a call fails exactly on a non-number non-callable or a rejected callable; Invoke runs it, and NumberAppends, OtherRejected and DispatchedCalls state the rest |
| CalcFn.Invocations | src/calc_fn.php:58-92 | the definition of the callable's invocations; its contract says there is at least one exactly when the call returns the callable's result; their number and shape are stated by DispatchedCalls and NoCallsUnlessDispatched |
| CalcFn.Calc | src/calc_fn.php:97 | the definition of the entry point; its contract says it never returns a callable's result and never calls one; CalcEntry states its outcomes |
| CalcFn.Call | src/calc_fn.php:30-32 | the definition of calling a returned accumulator; its contract says a number extends the saved values by one and keeps them in front; Feed and BranchesIndependent build on it |
| CalcFn.Feed | src/calc_fn.php:27-33 | feeding numbers one call at a time yields an accumulator holding the earlier values followed by those numbers, in order |
| CalcFn.RunGroups | src/calc_fn.php:81-94 | the splice loop terminates; its result is the left fold of the callable over the groups; its calls are the fold's call log; there are 1 + (valNum - reqNum) / (reqNum - 1) calls, each with reqNum arguments; the result is the last call's value |
| CalcFn.Invoke | src/calc_fn.php:25-95 | one call of the accumulator returns exactly what Apply specifies and calls the callable exactly as Invocations lists |
| CalcFn.NumberAppends | src/calc_fn.php:27-33 | a number never fails and never calls anything; it yields a new accumulator over the old values followed by the number |
| CalcFn.BranchesIndependent | src/calc_fn.php:28-32 | any branch built from a saved accumulator returns what one call on the saved values followed by that branch's numbers returns; since accumulators are values, building another branch first changes nothing |
| CalcFn.OtherRejected | src/calc_fn.php:36-39 | an argument that is neither a number nor a callable fails with code 4 |
| CalcFn.ZeroArityRejected | src/calc_fn.php:52-55 | a callable with no required parameter fails with code 5 for every number of accumulated values |
| CalcFn.SingleArity | src/calc_fn.php:58-65 | a one-parameter callable succeeds if and only if exactly one value was accumulated; it then returns f of that value after one call, and otherwise fails with code 2 |
| CalcFn.GroupedArity | src/calc_fn.php:68-94 | for reqNum >= 2: fewer than reqNum values fail with code 1; otherwise a count that is not reqNum + j * (reqNum - 1) fails with code 0; otherwise the result is the left fold over the groups |
| CalcFn.AcceptedIff | src/calc_fn.php:52-78 | validation passes if and only if reqNum = 1 and valNum = 1, or reqNum >= 2 and valNum = reqNum + j * (reqNum - 1) for some j >= 0 |
| CalcFn.NoCallsUnlessDispatched | src/calc_fn.php:27-78 | a failed call, and a call with a number, invoke the callable zero times |
| CalcFn.DispatchedCalls | src/calc_fn.php:58-94 | a successful dispatch makes 1 + (valNum - reqNum) / (reqNum - 1) calls (one for reqNum = 1), each with reqNum arguments; the first gets the first reqNum values; each later call starts with the previous result; every value is passed once, in order; the result is the last call's value |
| CalcFn.CalcEntry | src/calc_fn.php:97 | the entry point starts with no values: a number gives a one-value accumulator, and any callable fails (code 1 when reqNum >= 2) |
| CalcFnExamples.ChainIsApply | src/calc_fn.php:30-32 | calling the returned accumulators one after another is the same as one call on all the numbers |
| CalcFnExamples.GroupedChain | src/calc_fn.php:81-94 | a chain whose numbers are a group of reqNum followed by groups of reqNum - 1, concatenated, passes the checks and returns the fold over those groups |
| CalcFnExamples.ArgumentKinds | tests/CalcFnTest.php:16-37 | a non-number, non-callable argument gives code 4; a number gives an accumulator |
| CalcFnExamples.SingleParameterCallback | tests/CalcFnTest.php:39-65 | calc(2)(square) = 4 and calc(1)(square) = 1; calc(square) and calc(1)(2)(square) give code 2 |
| CalcFnExamples.ZeroParameterCallback | tests/CalcFnTest.php:67-90 | a callable without parameters gives code 5 with zero and with three values |
| CalcFnExamples.SumThreeTooFew | tests/CalcFnTest.php:98-104 | sum3 after two values gives code 1 |
| CalcFnExamples.SumThreeNotMultiple | tests/CalcFnTest.php:106-112 | sum3 after four values gives code 0 |
| CalcFnExamples.SumFourNotMultiple | tests/CalcFnTest.php:124-138 | sum4 after five and after six values gives code 0 |
| CalcFnExamples.FittingCountsAccepted | tests/CalcFnTest.php:114-144 | sum3 after five values and sum4 after seven values succeed |
| CalcFnExamples.SumTwoResults | tests/CalcFnTest.php:154-155 | sum over 5, 3, 2 is 10 and over 1, 2 is 3 |
| CalcFnExamples.PowResults | tests/CalcFnTest.php:158-159 | pow over 2, 3 is 8 and over 2, 3, 2 is 64 |
| CalcFnExamples.SumThreeOfFive | tests/CalcFnTest.php:191 | sum3 over 1..5 is 15 |
| CalcFnExamples.SumThreeOfThree | tests/CalcFnTest.php:192 | sum3 over 1, 2, 3 is 6 |
| CalcFnExamples.SumThreeOfSeven | tests/CalcFnTest.php:193 | sum3 over 1, 1, 1, 1, 1, 2, 2 is 9 |
| CalcFnExamples.SumFourOfSeven | tests/CalcFnTest.php:195 | sum4 over 1, 1, 1, 1, 2, 2, 2 is 10 |
| CalcFnExamples.SavedAccumulators | tests/CalcFnTest.php:168-202 | saved accumulators calc(1)(2) and calc(2)(3) give 1 and 8 on pow; calc(1)(1)(1) extended by 1, 2, 2, 2 gives 10 on sum4 |

## Left out

- Reflection-based arity inspection (`ReflectionFunction`, `ReflectionMethod`, `getNumberOfRequiredParameters`, src/calc_fn.php:42-48) is a PHP runtime facility. The required-parameter count is given as `Callback.reqNum`. Reflection can fail in the source (it is declared to throw `ReflectionException`, src/calc_fn.php:21): a `'Class::method'` string reaches `ReflectionFunction` at src/calc_fn.php:45, and an invokable object makes the same constructor raise a `TypeError`. The model has no callable whose count cannot be read.
- PHP's `is_numeric` and `is_callable` are builtins whose grammar is not modelled. The argument is already classified as `Number`, `Callable` or `Other`, so the tested strings `'1,1'` (rejected) and `'1.1'` (accepted) are not modelled.
- Floats and numeric-string coercion (tests/CalcFnTest.php:178-180) are not modelled. Values are an abstract type `V`, and the examples use integers.
- The callable's side effects and void (`null`) results are not modelled. `f` is a total function to `V`, so a void callable (tests/CalcFnTest.php:166) has no counterpart.
- The wording of the exception messages is not modelled. Each `Error` carries the count its message names, and `Error.Code` gives the exception code.
- The closure-returning-closure mechanics and the PHPUnit harness are not modelled. An accumulator is the sequence it closes over; calling a finished result (a number) as a function is outside the model (`Call` requires an accumulator).
- CalcFnExamples.Pow: PHP's `pow` with a negative exponent returns a float. The integer stand-in returns 0 there; the tests never use such an exponent.
- CalcFn.RunGroups: needs a default value of `V` (`V(0)`) only for its result variable before the first call, where PHP's `$result` is likewise unassigned; the value is never observed.
- CalcFn.RunGroups: requires that validation has passed, as the source reaches the loop only after its checks. For counts the checks reject, the splice loop's behaviour (a short last group) is described by `Splice` and `Chunks` but not run.
