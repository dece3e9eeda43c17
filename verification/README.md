# Edify expression core: a Dafny model

This project models the visible part of the edify expression evaluator
(`edify/expr.cpp`): the per-run `State` and its two `ErrorAbort` entry
points, the name-to-callable function table with `RegisterFunction`,
`FindFunction` and `RegisterBuiltins`, the argument helpers `ReadArgs` and
`ReadValueArgs` (slice and all-children forms), and the builtins
`less_than_int`, `greater_than_int` and `Literal`.

Modules, one per component:

- `Wrappers` (`wrappers.dfy`): `Option`, standing for a pointer that may be null.
- `EdifyState` (`state.dfy`): `Value` (text or blob), the truthiness convention,
  `State`, `NewState`, `ErrorAbort`, `ErrorAbortCause`.
- `FunctionTable` (`functions.dfy`): the table as `map<string, Fn>`, where `Fn`
  names the callable and `NullFn` is the null `Function`. A registration history (`Replay`) with its reference
  lookup (`LastRegistered`) states "the last registration wins".
- `ArgHelpers` (`args.dfy`): the helpers as pure functions. Child evaluation is
  an oracle. `children[i]` is the outcome of evaluating child `i`, and every
  read reports the indices it evaluated, in order. `Evaluates` is the
  declarative contract the helpers meet.
- `Builtins` (`builtins.dfy`): the two integer comparisons and `Literal`.

Two error-text disciplines sit side by side in the source, and the model
keeps both:

- `ErrorAbort` appends to the existing error text (expr.cpp:143, 151).
- The comparison builtins assign a new error text, replacing whatever was
  there (expr.cpp:5, 11, 21, 33, 39).

`ReadArgs` does not look at the error text before evaluating children
(expr.cpp:101-108).

## Model

| member | source | states |
|---|---|---|
| EdifyState.NewState | edify/expr.cpp:157-160 | a new State keeps the script and cookie, has an empty error text and no cause, so it is not aborted |
| EdifyState.ErrorAbort | edify/expr.cpp:140-146 | yields no Value; the error text becomes the old text followed by the message; the cause, script and cookie are unchanged |
| EdifyState.ErrorAbortCause | edify/expr.cpp:148-155 | yields no Value; appends the message like the other overload and records the given cause |
| EdifyState.ErrorAbortIsCauseFormWithCurrentCause | edify/expr.cpp:140-155 | the message-only overload equals the cause overload given the State's current cause |
| EdifyState.ErrorAbortKeepsEarlierMessage | edify/expr.cpp:143 | the earlier error text stays a prefix; the run is aborted afterwards exactly when it was before or the message is non-empty |
| EdifyState.ErrorAbortsAccumulate | edify/expr.cpp:143-153 | two aborts leave both messages in call order; the later cause overload wins; a later message-only abort keeps the earlier cause |
| FunctionTable.RegisterFunction | edify/expr.cpp:56-58 | afterwards the name's entry is the new callable (a lookup gives it, or None for the null callable); every other name keeps its entry; the name set grows by that name only |
| FunctionTable.FindFunction | edify/expr.cpp:60-66 | None exactly when the name is not bound or is bound to the null callable, otherwise the bound callable |
| FunctionTable.LastRegistered | edify/expr.cpp:56-66 | the reference lookup over a registration history is None exactly when the name was never registered |
| FunctionTable.LastRegisteredIsMostRecent | edify/expr.cpp:56-58 | what the reference lookup finds is a registration of that name never followed by another registration of it |
| FunctionTable.FindAfterReplay | edify/expr.cpp:56-66 | after replaying any history, a name's entry is its most recent registration, or the old entry if the history never names it; a lookup gives that callable, None for the null one; the bound names are the old ones plus the history's |
| FunctionTable.ReplayIdempotent | edify/expr.cpp:56-58 | replaying a registration history a second time changes nothing |
| FunctionTable.RegisterBuiltins | edify/expr.cpp:68-79 | binds each of the nine builtin names to its callable, leaves every other name as it was, and adds exactly those nine names |
| FunctionTable.BuiltinsOnEmptyTable | edify/expr.cpp:68-79 | on an empty table exactly the nine builtin names are bound, and "literal" is not |
| FunctionTable.RegisterBuiltinsIsReplay | edify/expr.cpp:68-79 | `RegisterBuiltins` equals replaying its nine registrations in source order, so its bindings are the last-write-wins lookups `FindAfterReplay` describes |
| FunctionTable.RegisterBuiltinsIdempotent | edify/expr.cpp:68-79 | calling it a second time leaves the table unchanged |
| ArgHelpers.Span | edify/expr.cpp:101 | the loop's index run start..start+len-1, in increasing order |
| ArgHelpers.Collect | edify/expr.cpp:101-134 | the loop shared by both helpers (lines 101-108 and 127-134) always leaves a non-null output; its full contract is `CollectEvaluates` |
| ArgHelpers.CollectEvaluates | edify/expr.cpp:101-134 | for the loop of both helpers (lines 101-108 and 127-134): it succeeds exactly when every child in range succeeds. On success the output is the prior contents followed by the children's results in index order, and every index was evaluated in order. On failure the output is empty and evaluation stopped at the first failing child |
| ArgHelpers.ReadArgs | edify/expr.cpp:93-110 | a null output or a slice past the last child fails with no child evaluated and the output untouched; otherwise the slice is read as `CollectEvaluates` states |
| ArgHelpers.ReadAllArgs | edify/expr.cpp:88-91 | reads every child: fails only on a null output or a failing child; with no children it succeeds without evaluating any |
| ArgHelpers.ReadValueArgs | edify/expr.cpp:119-136 | as `ReadArgs` over Values, but an empty slice also fails up front with no child evaluated |
| ArgHelpers.ReadAllValueArgs | edify/expr.cpp:114-117 | reads every child as a Value; no children at all is a failure |
| ArgHelpers.EvaluatesDeterminesResult | edify/expr.cpp:101-109 | the loop's contract leaves no freedom: two results meeting it are equal |
| ArgHelpers.ReadArgsOnlySeesEvaluated | edify/expr.cpp:101-108 | a read depends only on the children it evaluated; children after the first failure are never consulted |
| ArgHelpers.ReadArgsSplits | edify/expr.cpp:101-109 | reading a+b children equals reading the first a, then, only if that succeeded, the next b onto the same output |
| ArgHelpers.ReadArgsKeepsPrior | edify/expr.cpp:101-109 | earlier output contents decide neither success nor which children are evaluated; on success they precede the new results; on failure everything is cleared |
| ArgHelpers.ReadValueArgsMatchesReadArgs | edify/expr.cpp:119-136 | on children that fail at the same indices, `ReadValueArgs` succeeds exactly when `ReadArgs` does and the slice is non-empty, evaluating the same children |
| Builtins.CompareInts | edify/expr.cpp:18-43 | the shared comparison body meets the failure contract, and any Value it returns is the truth value of the comparison on the two parsed numbers |
| Builtins.LessThanInt | edify/expr.cpp:1-16 | succeeds exactly when both children evaluate and parse, giving "t" iff left < right and "" otherwise. The left text is parsed first and the first that fails is named in the message. A failing child adds no message. The cause code is untouched |
| Builtins.GreaterThanInt | edify/expr.cpp:18-44 | a count other than two fails with "greater_than_int expects 2 arguments" and evaluates nothing; otherwise it behaves as `less_than_int` with "t" iff left > right |
| Builtins.Literal | edify/expr.cpp:46-48 | returns its own name as text, evaluates no child and leaves the State unchanged |
| Builtins.ComparisonsMirror | edify/expr.cpp:15-43 | `less_than_int(a, b)` and `greater_than_int(b, a)` give the same result when both parse |
| Builtins.ComparisonsTrichotomy | edify/expr.cpp:15-43 | on the same parsed numbers at most one comparison is truthy, and both are falsy exactly when the numbers are equal |
| Builtins.ComparisonExamples | edify/expr.cpp:1-43 | less_than_int("3","10") is "t", greater_than_int("3","10") is "", and less_than_int("abc", x) fails naming "abc" |

## Left out

- Builtins.LessThanInt: only the tail of `LessThanIntFn` is part of this model.
  Its head, the arity check and the `ReadArgs` call, is modelled like
  `GreaterThanIntFn`'s, with the message "less_than_int expects 2 arguments".
- `android::base::ParseInt` is a library call whose syntax rules are not part
  of this model. It is the parameter `parse: string -> Option<Int64>`. The
  type guarantees only that a parsed number fits in 64 bits.
- The printf-style formatting in `ErrorAbort` (`StringAppendV` and varargs) is
  not modelled. The message arrives already formatted.
- `Evaluate`, `EvaluateValue` and the `Expr` tree are not part of this model.
  Each child is the outcome its evaluation would have. Changes a child makes
  to the State while it is evaluated are not modelled. Only the builtin's own
  writes are.
- The string coercion inside `Evaluate` is not modelled: `ReadArgs` receives
  text outcomes and `ReadValueArgs` receives Value outcomes.
- `ifelse`, `abort`, `assert`, `concat`, `is_substring`, `stdout` and `sleep`
  are not modelled. Only their registration is part of this model. `stdout`
  and `sleep` are output and blocking anyway.
- The cookie and the script are carried through unchanged and never
  inspected. The cookie is an opaque handle.
- The cause code enumeration and its default are declared in a header that is
  not part of this model. They are `CauseCode = NoCause | Cause(code)`.
- The hashing of `unordered_map`, memory ownership (`unique_ptr`) and the
  process-global table are not modelled. The table is an explicit value.
- ArgHelpers.ReadArgs: `start + len` is computed in `size_t` in the source and
  may wrap around. Here it is unbounded, so that overflow is not modelled.
- ArgHelpers.ReadValueArgs: the same `size_t` wrap-around of `start + len` is
  not modelled.
