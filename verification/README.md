# perhaps.js optional values in Dafny

A model of the optional-value library in `src/lib/perhaps.ts`. The library has three shapes:

- **`Maybe`**: a lazy facade. It holds a producer that has not run yet, or a cached result.
- **`Just`**: a present terminal holding one value.
- **`None`**: an absent terminal. It owns the fallback scan.

Each instance carries a configuration (`MonadParams`). The configuration is an emptiness test plus a resolver for nested instances. There are two built-in policies: the default one and the nullable one.

Modules:

- `Config`: values, policies, options, `completeParams`, errors.
- `Instances`: candidates, terminals, the facade's memo state.
- `Fallback`: the scan of `None` (`doResolve`, `doMaybe`, `doJust`) together with the facade's `resolved()`. These two call each other.
- `Terminals`: the public methods of `Just` and `None`.
- `Facades`: factories, delegation, `visit`.
- `ScanProperties`, `MemoProperties`, `FactoryProperties`, `TerminalProperties`: the properties proved.
- `Corrections`: the two findings below.
- `SuiteExamples`: the library's own test case, restated on the model.

Modelling choices:

- **Candidate tags.** A fallback candidate is `Raw(value)`, `Producer(fn, output)` or `Nested(instance)`. These tags replace the runtime probing that `instanceof` and `typeof` do in the source. The tag decides how a candidate is treated.
- **Producers.** A producer's `output` is itself a tagged candidate. It is what the function returns when called: a plain value, another function, or an instance. In the model, a function value is only a reference, `Func(ref)`.
- **Custom resolvers.** A custom `resolve` hook is named by an id (`Custom(id)`). Its behaviour comes from a hook environment (`Hooks`) that is passed to every scan. Its three possible outcomes are modelled: a `Just`, a `None`, or anything else.
- **Instance identity.** Identity is modelled as value equality. Where the source returns "the same instance", the model returns an equal value. Two `None`s with the same params are indistinguishable here.
- **The lazy facade.** It is a value `Facade(params, state, calls)` with `state` one of `Bare | Pending(output) | Cached(terminal)`. `calls` counts how often the producer has run. `resolved()` returns the outcome together with the facade as it is left afterwards.
- **Code as written.** Where the code does something other than its method names and types suggest, the model follows the code:
  - `Just.map` discards the mapped value.
  - `visit` only acts on an empty result and never calls the present handler.
  - `nullable()`, `lazyNullable(g)` and `ofNullable(v)` without options use the default policy.
  - A nested `Just` candidate does not stop the scan.
  - `resolved()` feeds the producer's output through `or`, not `orGet`.

## Model

| member | source | states |
|---|---|---|
| Config.NullablePolicyDiffersOnlyOnNull | src/lib/perhaps.ts:40-51 | the two built-in policies both force nested instances, and differ only on `null`: whatever the nullable policy deems empty the default one does too, and `null` is the one value empty under the default policy and present under the nullable one |
| Config.CompleteParams | src/lib/perhaps.ts:58-64 | missing options stay missing; given options keep each given field and take each missing one from the reference policy |
| Config.CompleteParamsKeepsComplete | src/lib/perhaps.ts:58-64 | completing an already complete policy returns it unchanged, whatever the reference |
| Config.ParamsOrDefault | src/lib/perhaps.ts:108-110 | an instance without params uses the default policy |
| Fallback.Classify | src/lib/perhaps.ts:304-307 | a non-instance value becomes a new `Just` with the receiver's params exactly when it is not `undefined` and not empty under the receiver's policy; otherwise it changes nothing |
| Fallback.StepOf | src/lib/perhaps.ts:285-308 | one candidate either adds a `Just` carrying the receiver's params, adopts a `Just` or the receiver, does nothing, or raises only `LazyMonadError`/`MonadResolutionError`; an uncalled producer counts as its function value |
| Fallback.DoResolve | src/lib/perhaps.ts:265-277 | with a custom hook, a `Just` is adopted as is, a `None` becomes the receiver, and any other answer raises `MonadResolutionError`; with forcing, a terminal resolves to itself and a nested facade gives its own `resolved()` outcome, an error passed through, a `Just` adopted, a `None` turned into the receiver |
| Fallback.ForceMonad | src/lib/perhaps.ts:43-44 | the default resolver returns a terminal unchanged and gives a facade's `resolved()` outcome, raising only scan errors |
| Fallback.Resolved | src/lib/perhaps.ts:112-122 | a bare facade raises `LazyMonadError` and is unchanged; a cached terminal is returned with no producer call; a pending producer runs once, and success caches the result of `none().or(output)` while failure leaves the facade pending |
| Fallback.ScanFrom | src/lib/perhaps.ts:283-311 | the scan's result is the running value, a `Just`, or the receiver, and it only raises `LazyMonadError` or `MonadResolutionError` |
| Fallback.Scan | src/lib/perhaps.ts:279-312 | `doMaybe` returns a `Just` or the receiver `None` itself, and never raises `EmptyMonadError` |
| Fallback.ScanSingle | src/lib/perhaps.ts:118 | scanning a single candidate (as `resolved()` and `of` do) settles on that candidate's step |
| Fallback.DoMaybe | src/lib/perhaps.ts:279-312 | the loop with its running result and early `break` computes exactly the recursive scan |
| Fallback.DoJust | src/lib/perhaps.ts:314-325 | `doJust` returns only `Just`s, and raises `EmptyMonadError` exactly when the scan returns the receiver `None`; other scan outcomes pass through |
| Terminals.Get | src/lib/perhaps.ts:335-338 | `get` raises `EmptyMonadError` exactly on a `None`; on a `Just` (lines 206-209) it returns the value or the transformer applied to it |
| Terminals.RawOf | src/lib/perhaps.ts:340-343 | `raw` agrees with `get` on a `Just` (lines 211-214) and gives `undefined`, or the transformer of `undefined`, on a `None` |
| Terminals.IsEmpty | src/lib/perhaps.ts:345-347 | `isEmpty` holds exactly when `get` would raise, whatever value a `Just` holds (lines 216-218) |
| Terminals.Expected | src/lib/perhaps.ts:349-354 | a `Just` is returned unchanged (lines 220-223); a `None` always raises: the message function's value, an `EmptyMonadError` with the message, or one without |
| Terminals.Or | src/lib/perhaps.ts:356-358 | a `Just` ignores its fallbacks (lines 225-228); a `None` runs the non-calling scan; the result is a `Just` or the receiver |
| Terminals.OrGet | src/lib/perhaps.ts:360-362 | like `or`, but runs the calling scan; a `Just` again returns itself (lines 230-233) |
| Terminals.JustOf | src/lib/perhaps.ts:364-366 | `just` returns only `Just`s, a `Just` returning itself (lines 235-238); it raises `EmptyMonadError` exactly when `or` would return a `None`, and otherwise agrees with `or` |
| Terminals.JustGetOf | src/lib/perhaps.ts:368-370 | `justGet` returns only `Just`s, a `Just` returning itself (lines 240-243); it raises `EmptyMonadError` exactly when `orGet` would return a `None`, and otherwise agrees with `orGet` |
| Terminals.Map | src/lib/perhaps.ts:245-248 | `map` returns the receiver itself; it calls the mapper with the value on a `Just` and not at all on a `None` (lines 372-375) |
| Terminals.FlatMap | src/lib/perhaps.ts:250-252 | `flatMap` returns the mapper's terminal on a `Just` and the receiver, mapper uncalled, on a `None` (lines 377-380) |
| TerminalProperties.ExpectedIsJustWithoutFallbacks | src/lib/perhaps.ts:349-354 | `expected()` without a message raises exactly when `get()` does, with the same `EmptyMonadError`, and is `just()` with no fallbacks |
| TerminalProperties.FlatMapRightIdentity | src/lib/perhaps.ts:250-252 | `flatMap` with the mapper that rewraps the value in the receiver's params returns the receiver, on a `Just` and on a `None` |
| TerminalProperties.FlatMapLeftIdentityAndAssociativity | src/lib/perhaps.ts:250-252 | `Just(v).flatMap(f)` is `f(v)`, and two chained `flatMap`s are one `flatMap` of the composed mapper |
| Facades.NoneOf | src/lib/perhaps.ts:66-69 | `Maybe.none(opts)` is absent and carries the options completed against the default policy; without options it uses the default policy |
| Facades.NullableNone | src/lib/perhaps.ts:71-74 | `Maybe.nullable(opts)` carries the options completed against the nullable policy: the given emptiness test or the nullable one, the given resolver or forcing; with no options at all it uses the default policy |
| Facades.LazyOf | src/lib/perhaps.ts:76-82 | `Maybe.lazy` builds a facade whose producer has not run, with the options completed against the default policy; a missing getter leaves it bare |
| Facades.LazyNullable | src/lib/perhaps.ts:84-90 | `Maybe.lazyNullable` builds an unrun facade, bare without a getter, with the options completed against the nullable policy (given emptiness test and resolver kept); with no options it uses the default policy |
| Facades.Of | src/lib/perhaps.ts:92-98 | `Maybe.of(v)` is a `Just` of `v` with the completed params when `v` is present under that policy, and the absent terminal otherwise |
| Facades.OfNullable | src/lib/perhaps.ts:100-106 | `Maybe.ofNullable` returns a `Just` or the absent terminal with the nullable-completed params |
| Facades.Delegate | src/lib/perhaps.ts:128-166 | a facade method forces once and applies the terminal's method to the forced result; a bare facade raises `LazyMonadError`; a cached one runs no producer; an error from forcing a pending facade is the method's result, the method not applied |
| Facades.VisitTerminal | src/lib/perhaps.ts:172-177 | on a resolved instance, `visit` never calls the present handler; it calls the absent handler exactly on a `None` that has one, and raises `EmptyMonadError` exactly on a `None` with only a present handler |
| Facades.Visit | src/lib/perhaps.ts:168-178 | `visit` first resolves (identity on terminals, memoised forcing on facades); a forcing error calls no handler |
| Facades.IfPresent | src/lib/perhaps.ts:180-182 | `ifPresent` never calls its handler and raises exactly when the instance resolves to a `None` |
| Facades.IfAbsent | src/lib/perhaps.ts:184-186 | `ifAbsent` calls its handler exactly when the instance resolves to a `None` and raises nothing of its own |
| ScanProperties.ScanFirstStopDecides | src/lib/perhaps.ts:283-311 | the first candidate that is a present raw value or raises decides the scan, whatever came before it as a running result and whatever follows |
| ScanProperties.ScanAllSkipped | src/lib/perhaps.ts:283-311 | candidates that all leave the result alone return the running result unchanged |
| ScanProperties.ScanLastAdoptionDecides | src/lib/perhaps.ts:287-288 | when nothing stops the scan, the last nested or produced instance decides the result |
| ScanProperties.ScanReceiverWhenAllAbsent | src/lib/perhaps.ts:283-311 | an empty list, empty raw values, and instances resolving to `None`, in any mix, give back the receiver itself |
| ScanProperties.ScanAbsentOnlyIfNothingStops | src/lib/perhaps.ts:304-306 | a scan that returns the receiver met no present raw value and no error |
| ScanProperties.FirstPresentRawWins | src/lib/perhaps.ts:304-306 | the first raw value that is neither `undefined` nor empty becomes a new `Just` with the receiver's params |
| ScanProperties.ScanIgnoresLaterCandidates | src/lib/perhaps.ts:305-306 | candidates after the one that stops the scan cannot change its result |
| ScanProperties.ScanCongruence | src/lib/perhaps.ts:285-309 | two candidate lists that act alike position by position scan to the same result |
| ScanProperties.OrNeverCallsProducers | src/lib/perhaps.ts:294-299 | `or` gives the result of the scan in which each producer is replaced by its bare function value, so producer outputs cannot matter |
| ScanProperties.OrGetCallsProducers | src/lib/perhaps.ts:294-299 | `orGet` gives the result of `or` over the producers' return values, including returned instances |
| ScanProperties.NestedCandidateContinues | src/lib/perhaps.ts:287-288 | a nested instance either raises, or replaces the running result and the scan continues with the next candidate |
| MemoProperties.ResolvedIsMemoised | src/lib/perhaps.ts:112-122 | after a successful `resolved()`, any number of further calls return the same terminal and leave the facade and its call count unchanged |
| MemoProperties.ProducerRunsOnce | src/lib/perhaps.ts:117-119 | a `Maybe.lazy` facade that resolves calls its producer exactly once, however often it is forced |
| MemoProperties.BareAlwaysRaises | src/lib/perhaps.ts:113-115 | a facade without a producer raises `LazyMonadError` on every call and never changes |
| MemoProperties.FailedForcingRetries | src/lib/perhaps.ts:117-119 | when the scan of the producer's output raises, each later call runs the producer again and raises the same error |
| MemoProperties.LazyAgreesWithOf | src/lib/perhaps.ts:118 | forcing `Maybe.lazy(producer)` gives what `Maybe.of` gives for the producer's output |
| MemoProperties.DelegationReusesCache | src/lib/perhaps.ts:128-166 | after one facade method succeeds, a second method sees the same cached terminal and changes nothing |
| FactoryProperties.OfIsNoneOr | src/lib/perhaps.ts:92-98 | `Maybe.of(v, opts)` equals `Maybe.none(opts).or(v)` |
| FactoryProperties.OfNullableIsOf | src/lib/perhaps.ts:100-106 | the second `or` in `ofNullable` never changes the outcome: it equals `of` under the nullable-completed options |
| FactoryProperties.NullDependsOnPolicy | src/lib/perhaps.ts:40-51 | `null` is absent under the default policy and present under the nullable one; `ofNullable(null)` without options is absent |
| FactoryProperties.NullableWithoutOptionsIsDefault | src/lib/perhaps.ts:71-90 | without options, `nullable` and `lazyNullable` build exactly what `none` and `lazy` build |
| FactoryProperties.OfThenGet | src/lib/perhaps.spec.ts:28 | a value that is neither `undefined` nor `null` comes back unchanged from `of(v).get()` |
| FactoryProperties.NoneAccessors | src/lib/perhaps.spec.ts:17-19 | on `Maybe.none()`, `get` raises `EmptyMonadError`, `raw` is `undefined`, and `isEmpty` holds |
| Corrections.MapIntended | src/lib/perhaps.ts:245-248 | the intended `map` gives a `Just` of the mapped value when it is present, and the absent terminal with the same params otherwise |
| Corrections.MapDiscardsMappedValue | src/lib/perhaps.ts:245-248 | as written, mapping `Just(5)` to `null` or to `6` still gives `Just(5)`; the intended `map` gives `None` and `Just(6)` |
| Corrections.VisitIntended | src/lib/perhaps.ts:168-178 | the intended `visit` calls the handler for the resolved variant when one is supplied, and never raises |
| Corrections.IfPresentNeverRuns | src/lib/perhaps.ts:180-182 | as written, `ifPresent` on `Just(5)` calls nothing and on a `None` raises `EmptyMonadError`; the intended visitor calls the handler with 5 and ignores the `None` |
| SuiteExamples.DefaultNothingOr | src/lib/perhaps.spec.ts:21-30 | `or` returns the receiver for no candidates or `None` candidates, adopts a nested `Just`, and wraps producers uncalled as `Just(function)` |
| SuiteExamples.DefaultNothingOrGet | src/lib/perhaps.spec.ts:32-42 | `orGet` calls producers: the payload, a nested `Just` and a returned `Just` are adopted and `get` gives the payload; no candidates, a nested `None` or a returned `None` give back the receiver |
| SuiteExamples.DefaultNothingJust | src/lib/perhaps.spec.ts:44-65 | `just`/`justGet` raise `EmptyMonadError` for no candidates and for `None` candidates; `just` adopts a nested `Just`, wraps the payload and keeps producers uncalled as `Just(function)`; `justGet` calls them, adopting the payload or a returned `Just` and raising on a returned `None` |
| SuiteExamples.OrderIsLeftToRight | src/lib/perhaps.ts:283-307 | after two absent candidates, the first of 5 and 6 in list order wins |
| SuiteExamples.LaterNoneUndoesNestedJust | src/lib/perhaps.ts:287-288 | a nested `Just` followed by a nested `None` gives back the receiver |
| SuiteExamples.LazyProducerReturningFunction | src/lib/perhaps.ts:118 | a facade whose producer returns a function resolves to a `Just` of that function |

## Left out

- Instance identity (`===`) is modelled as value equality. Terminals carry no allocation identity, so the model cannot tell apart two `None`s with equal params.
- A nested facade forced during a scan does not have its cache written back: the scan is a pure function of the candidate values. The memo properties are about the facade being forced directly.
- Producers, mappers, transformers, visitor handlers and custom hooks that throw are not modelled. A producer that throws would leave its facade pending. Only the library's own errors and the thrown value of an `expected` message function are modelled.
- Custom resolve hooks are opaque functions looked up by id. A hook that recurses into the library or forms a reference cycle is not modelled, because its termination cannot be stated.
- Cycles and re-entry through producers are not modelled. A producer that returns its own facade (`const m = Maybe.lazy(() => m)`), or that forces that facade from inside, re-enters `resolved()` before the getter is replaced (lines 117-118 and 287-288) and recurses until the stack overflows. Candidates and facades are well-founded datatypes, so every modelled scan terminates.
- Producers are deterministic: a `Producer` carries one fixed `output`, where the source calls a closure that may keep state. So `MemoProperties.FailedForcingRetries` promises that a retried forcing raises the same error; a stateful producer could return something else on its next call.
- A `Raw` candidate holding a function value (`Raw(Func(r))`) is never called, even by `orGet`. The source calls every function candidate (lines 294-295). A function candidate is expected to be tagged `Producer`, and the model does not check that tagging.
- `Object.freeze`, the `Readonly` aliases and the TypeScript generics are not modelled. Immutable Dafny datatypes make freezing structural.
- `completeParams` mutates the caller's options object in place. It is modelled as a pure function that returns the completed params.
- The error classes are modelled as constructors of one `Error` datatype, not as a class hierarchy. The message is kept only for `EmptyMonadError`.
- `none()` on a facade is modelled inside `Fallback.Resolved`. On a `None`, `none()` returns the receiver itself, and the scan uses that receiver directly, so it has no separate member.
- Facades.Delegate: the ten delegating facade methods are modelled by one generic delegation over the terminal methods, not by ten separately named members.
- `Just.make` and `None.make` are the datatype constructors `Just(value, params)` and `None(params)`. Freezing is structural, so they have no separate members.
- The `ava` test harness is not modelled. The assertions of its "Default Nothing" case about `or`, `orGet`, `just` and `justGet` are restated as lemmas in `SuiteExamples`, and those about `none()` itself in `FactoryProperties.NoneAccessors` (`get`, `raw`, `isEmpty`) and `Facades.NoneOf` (`params`). Its `resolved()` assertion is covered by `Facades.Visit`, which resolves a terminal to itself.

## Findings

| source | as written | input that shows it | evidently intended | confidence | as-written member | corrected member |
|---|---|---|---|---|---|---|
| src/lib/perhaps.ts:245-248 | `Just.map` calls the mapper and returns `this.or(mapped)`, and `or` on a `Just` is the identity, so the mapped value is discarded | `Maybe.of(5).map(() => null)` and `Maybe.of(5).map(() => 6)` both stay `Just(5)` | re-scan the mapped value from an absent terminal with the same params, giving `None` and `Just(6)` | not executed; high | Terminals.Map | Corrections.MapIntended |
| src/lib/perhaps.ts:168-186 | `visit` acts only on an empty result; without an absent handler it evaluates `monad.get()`, which raises before the present handler can run | `Maybe.of(5).ifPresent(f)` never calls `f`; `Maybe.none().ifPresent(f)` raises `EmptyMonadError` | call the present handler with the value on a `Just` and the absent handler on a `None` | not executed; medium | Facades.VisitTerminal | Corrections.VisitIntended |

The facade and terminal members above keep the code's behaviour. The corrected members stand beside them, each with its intended property proved, and with the input that separates the two versions proved in `Corrections.MapDiscardsMappedValue` and `Corrections.IfPresentNeverRuns`.
