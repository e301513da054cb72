# Optional&lt;T&gt; — a verified model

This project models `Optional<T>`, a small immutable container from the
`essentials` TypeScript library. It handles absent values. An `Optional` holds
one JavaScript value, which may be `null`, `undefined` or a real value. The
constructor sets that value once and nothing changes it afterwards. The
operations are:

- the two factories `from` and `empty`;
- the presence tests `isPresent` and `isNotPresent`;
- raw access `get`;
- the transformation `map`;
- the fallbacks `orElse` and `orElseGet`;
- the callback dispatchers `ifPresent` and `ifPresentOrElse`.

Files:

- `optional.dfy` (module `Optionals`): the container and its operations.
  Everything is a pure function over datatypes.
  - `Stored<T>` has three cases: `Null | Undefined | Val(v)`. Three are needed
    because `get()` returns the stored value unchanged. So `from(undefined).get()`
    is `undefined`, while `empty().get()` and mapping over an absent value give
    `null`.
  - Callbacks that only have an effect are modelled by the calls they receive.
    `ifPresent`, `ifPresentOrElse`, `map` and `orElseGet` return the list of
    callback invocations (`Call<T>`): `Applied(arg)` for a Consumer or a mapper,
    `Invoked` for a Runnable or a Supplier.
  - The mapper of `map` is itself a `Stored` value. When it is `null` or
    `undefined`, `map` fails with the assertion's message.
- `optional_laws.dfy` (module `OptionalLaws`): laws that relate several
  operations. It also defines `MapChain`, the fluent chain
  `o.map(f1).map(f2)…`, whose outcome (a container or the assertion failure)
  comes with every mapper call made, those before a failure included, and
  proves by induction what such chains do.
- `optional_examples.dfy` (module `OptionalExamples`): the expectations of the
  repository's test file for `Optional`, restated over a small model of
  JavaScript values (`JsValue`, property access, truthiness).

## Model

| member | source | states |
|---|---|---|
| `Optionals.From` | src/main/optionals/Optional.ts:8-10 | `get()` of `from(x)` is `x` itself, `null` and `undefined` included; it is present exactly when `x` is a real value |
| `Optionals.Empty` | src/main/optionals/Optional.ts:12-14 | `empty()` holds `null` and is not present |
| `Optionals.Get` | src/main/optionals/Optional.ts:30-32 | returns the stored value unchanged: wrapping it again gives back the same container; `From` is its inverse (`OptionalLaws.FromGetRoundTrip`) |
| `Optionals.IsPresent` | src/main/optionals/Optional.ts:34-36 | true exactly when the stored value is neither `null` nor `undefined` |
| `Optionals.IsNotPresent` | src/main/optionals/Optional.ts:38-40 | true exactly when the stored value is `null` or `undefined`, i.e. always the negation of `isPresent()` |
| `Optionals.IfPresent` | src/main/optionals/Optional.ts:16-20 | the function is called at most once, only when a value is present, and then with the stored value |
| `Optionals.IfPresentOrElse` | src/main/optionals/Optional.ts:22-28 | exactly one callback runs: `presentFunc` with the stored value when present, `notPresentFunc` otherwise |
| `Optionals.Map` | src/main/optionals/Optional.ts:42-49 | fails with the mapper assertion exactly when the mapper is `null`/`undefined`, present or not; otherwise calls the mapper once with the value when present and `get()` is what it returned; when absent no call is made and `get()` is `null` |
| `Optionals.OrElse` | src/main/optionals/Optional.ts:51-57 | the stored value when present, `other` otherwise |
| `Optionals.OrElseGet` | src/main/optionals/Optional.ts:59-65 | the stored value with no supplier call when present; the supplier's value, with exactly one supplier call, otherwise |
| `OptionalLaws.FromGetRoundTrip` | src/main/optionals/Optional.ts:30-32 | `get()` inverts `from` and `from` inverts `get()` |
| `OptionalLaws.PresenceIsComplementary` | src/main/optionals/Optional.ts:34-40 | `from(x)` is present iff `x` is neither `null` nor `undefined`; `isNotPresent()` is the negation of `isPresent()` |
| `OptionalLaws.IfPresentOrElseExtendsIfPresent` | src/main/optionals/Optional.ts:16-28 | `ifPresentOrElse` makes the call `ifPresent` makes when present and only `notPresentFunc` otherwise; it calls only `notPresentFunc` iff the value is not present |
| `OptionalLaws.OrElseGetAgreesWithOrElse` | src/main/optionals/Optional.ts:51-65 | `orElseGet(s)` returns `orElse(s())` and calls `s` iff the value is absent |
| `OptionalLaws.OrElseOfFromAndEmpty` | src/main/optionals/Optional.ts:51-57 | the fallback is ignored for `from(v)` with a real `v`, and taken for `empty()` and for `from(undefined)` |
| `OptionalLaws.MapIdentityNormalizesUndefined` | src/main/optionals/Optional.ts:45-48 | mapping with the identity leaves a container unchanged except that `undefined` becomes `null` |
| `OptionalLaws.MapFusion` | src/main/optionals/Optional.ts:42-49 | `o.map(f).map(g)` holds the value `o.map(x => f(x) then g)` holds, where an absent intermediate short-circuits to `null` |
| `OptionalLaws.NullMapperAlwaysFails` | src/main/optionals/Optional.ts:43 | a `null`/`undefined` mapper fails with the same error on every container, present, `null` or `undefined` |
| `OptionalLaws.MapChain` | src/test/Optionals/Optional.test.ts:227-245 | a chain of n `map` calls makes at most n mapper calls, all of them applications to a value; when it succeeds with fewer calls than mappers, `get()` at the end is `null`; calls made before a failing `map` are kept |
| `OptionalLaws.AbsentChainStaysAbsent` | src/main/optionals/Optional.ts:45-48 | a non-empty chain of real mappers on an absent value calls no mapper and ends in `empty()` |
| `OptionalLaws.NullMapperFailsChain` | src/main/optionals/Optional.ts:43 | a `null`/`undefined` mapper at position k makes the whole chain fail, whether or not a value reaches it, after exactly the calls of the first k maps |
| `OptionalLaws.EarlierCallsSurviveFailure` | src/main/optionals/Optional.ts:43-46 | in `from(v).map(f).map(null)`, `f` has been called with `v` before the chain fails |
| `OptionalLaws.MapChainAppend` | src/main/optionals/Optional.ts:42-49 | a chain split anywhere gives the same result and the same calls as the whole chain |
| `OptionalLaws.ChainStopsAtFirstAbsent` | src/main/optionals/Optional.ts:45-48 | once a prefix of the chain leaves the value absent, the rest of the chain adds no calls and ends in `empty()` |
| `OptionalLaws.PresentChainCallsEveryMapper` | src/main/optionals/Optional.ts:45-46 | when every mapper receives a present value, mapper i is called exactly once, in order, with the value the first i mappers produced, and `get()` at the end is the mappers composed (the reference `Compose`), even when the last one returns `null` or `undefined` |
| `OptionalExamples.FalsyValuesArePresent` | src/test/Optionals/Optional.test.ts:133-188 | every real value is present, including the falsy `false`, `0` and `''`; `null` and `undefined` are not |
| `OptionalExamples.IfPresentExamples` | src/test/Optionals/Optional.test.ts:22-116 | `ifPresent`/`ifPresentOrElse` calls for `''`, `false`, `123`, `null`, `undefined` and `empty()` |
| `OptionalExamples.GetExamples` | src/test/Optionals/Optional.test.ts:111-129 | `get()` of `from('flamboyant')`, `from(null)`, `empty()` and `from(undefined)` |
| `OptionalExamples.MapChainExamples` | src/test/Optionals/Optional.test.ts:227-252 | the address chain yields the postal code; the chain through the father's missing address yields `null` |
| `OptionalExamples.MapChainSkipsLastMapper` | src/test/Optionals/Optional.test.ts:239-253 | the chain through the father's `undefined` cpf yields `null` and never calls its last mapper, whatever that mapper is |
| `OptionalExamples.OrElseExamples` | src/test/Optionals/Optional.test.ts:269-316 | for the tests' own person, `orElse`/`orElseGet` fall back to 22 for the missing age (calling the supplier once) and keep the name `'test'` (without calling it) |

## Left out

- src/main/http/HttpClient.ts: a singleton wrapper over an HTTP library and observables. It is network I/O and asynchronous foreign calls with no algorithmic content.
- src/main/types/HttpClientConfiguration.ts: a type declaration only.
- CPF validation (`Validation.isCPF`): its implementation is not part of this model. Only its test file is in the repository text, and without the code there is nothing to model it against.
- `Verify` and `Assert`: these modules are not part of this model. `Verify.isNotNullOrUndefined`/`isNullOrUndefined` are modelled as the complementary test "neither `null` nor `undefined`". `Assert.notNullOrUndefined` is modelled as a `Failure(AssertionFailed(message))` result. How it reports the failure (throwing, and with what error object) is not modelled.
- Optionals.OrElse: `other` is a real value, as the `NonNullable<T>` parameter type demands. A caller that bypasses the type and passes `null` would get `null` back; that case is not modelled.
- Optionals.OrElseGet: the supplier returns a real value, as its `Supplier<NonNullable<T>>` type demands; a supplier returning `null` despite its type is not modelled.
- Optionals.IfPresent: the callback is not a parameter. Its effects live outside the container, so the model returns the calls it receives instead of running it.
- Optionals.Map, Optionals.IfPresent, Optionals.IfPresentOrElse, Optionals.OrElseGet: every mapper, consumer, runnable and supplier is modelled as a total function that returns normally. An exception thrown inside a callback, which in the source propagates out of the operation (as `cpf => cpf.toUpperCase()` of the tests would on `undefined`), is not modelled. Neither is the TypeError raised by a `null` consumer, runnable or supplier: the source does not check those in advance and fails only on the branch that calls them, whereas only the mapper of `map` is checked first.
- OptionalLaws.MapChain: all mappers of a chain share one value type, because a Dafny sequence is homogeneous. A chain whose stages change type is covered one `map` at a time (`Map`, `MapFusion`).
- TypeScript `as NonNullable<T>` casts: they have no runtime behaviour.
- Jest mocks: only the calls they record are modelled, by the call lists.
- The `instanceof Optional` check of the tests: in the model every value of the datatype is an `Optional`.
- The `nomeMae` expectation of the tests: it relies on optional chaining and `toUpperCase` inside one mapper, which are JavaScript semantics rather than the container's.
- `JsValue`: JavaScript numbers are modelled as integers (no `NaN`, `-0` or fractions). Property access is modelled on objects only; a property of a string or an array reads as `undefined`.
