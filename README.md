# A verified model of the `di` dependency-injection container

`di` is a small reflection-based dependency-injection container written in
Go. A `Container` holds two maps: `providers`, from a produced type to the
provider function that makes it, and `instances`, from a type to the value
already made for it. It offers four operations:

- `New` / `provide` register provider functions. A provider must be a
  function with one result, or with two results whose second result is an
  interface type that implements `error`. Only one provider is allowed per
  produced type.
- `instance` resolves a type. It returns the cached value if there is one.
  Otherwise it resolves the provider's parameter types left to right, calls
  the provider, and caches what it returned, even when the provider also
  returned an error.
- `Consume` resolves the parameters of a zero-result callback in order and
  calls the callback only if every parameter resolved.
- `Close` calls `Close` on every cached instance that is an `io.Closer`. It
  does not stop at a failure, and it gathers the failures into a
  `multiError`, which prints like a Go slice: `[e1 e2 …]`.

The model has five modules:

- `Types` holds the values. A Go type becomes a `TypeId`. A function value
  becomes a `Signature`, which is what reflection tells about it. A
  provider is a signature plus a `call` that stands for `reflect.Value.Call`.
- `Registry` holds the shape checks of `provide`, the one-provider-per-type
  rule, and `New`'s loop. It has these as functions, with lemmas about when
  `New` succeeds and what the registry then holds.
- `Resolution` holds `instance`, its parameter loop and `Consume` as
  mutually recursive functions of the registry and the cache. It also has
  lemmas on memoization, the first failure, dependency closure and when
  resolution succeeds.
- `Teardown` holds what `Close` must gather, as a multiset that does not
  depend on the order the map is visited in. It also has the text of every
  error, `multiError.Error`, and the error texts of the `Close` tests.
- `Di` holds the `Container` class. Its `providers` and `instances` fields
  are updated in place. Its methods `New`, `Provide`, `Instance`,
  `Arguments`, `Consume` and `Close` are proved to compute exactly what the
  functions above specify. A ghost field `invoked` records which providers
  were called, in order. The class invariant says every provider is called
  at most once and its result is cached.

The code has no guard against a dependency cycle, so `instance` recurses
forever on one. The model makes the absence of cycles a precondition. A
ghost `rank` on types has to drop from every registered type to each of its
provider's parameters (`Resolution.Acyclic`), and the recursion decreases
that rank.

Two facts about the code worth stating plainly:

- `container.go` has no destination (`inject`) adapter. `Consume` is the
  only way to resolve values from outside.
- `instance` caches only `ret[0]` (container.go:133), never the provider's
  error. A later `instance` of that type therefore returns the cached value
  with a nil error (container.go:99-101). `Resolution.ResolveAgain` states
  this.

## Model

| member | source | states |
|---|---|---|
| Registry.ShapeError | container.go:41-57 | A provider is refused exactly when it is not a function, has 0 or more than 2 results, or has a second result that is not an interface type implementing `error` (a concrete error type such as `*MyErr` is refused too). The first two cases give "not a provider function" and the third gives "not a provider function with error" naming the second result type. |
| Registry.Provide | container.go:41-66 | Registration succeeds exactly when the shape is acceptable and the produced type has no provider yet. A badly shaped provider gives the error `ShapeError` names, and a duplicate gives `DuplicatedProvider` for that type. On success exactly one entry is added, keyed by the produced type, and every other entry is unchanged. The registry invariant is kept. |
| Registry.Build | container.go:16-29 | A registry `New` builds satisfies the registry invariant. A failure of `New` is always a `FailedToProvide` wrapping. |
| Registry.BuildSucceedsIff | container.go:16-29 | `New` succeeds if and only if every provider has an acceptable shape and no two produce the same type. |
| Registry.BuildOkIsAcceptable | container.go:22-26 | If `New` succeeds, every provider is well shaped and produced types are distinct. |
| Registry.BuildErrIsUnacceptable | container.go:22-26 | If `New` fails, some provider is badly shaped or two produce the same type. |
| Registry.BuildEntries | container.go:22-28 | After a successful `New`, every provider is stored under the type it produces. |
| Registry.BuildKeys | container.go:22-28 | After a successful `New`, every key of the registry is the produced type of some given provider. |
| Registry.BuildSize | container_test.go:49-76 | After a successful `New`, the registry has exactly one entry per provider. |
| Registry.BuildFailsAtFirstRefusal | container.go:22-25 | When `New` fails, there is a provider that is refused after all earlier ones registered cleanly, and `New`'s error is that refusal, wrapped. |
| Registry.RefusedAtLonger | container.go:22-25 | A refusal stays the one `New` reports when more providers follow it. |
| Registry.BuildErrPersists | container.go:23-25 | Once a provider has been refused, later providers do not change `New`'s outcome. |
| Resolution.Resolve | container.go:98-136 | Resolution only adds cache entries and never changes one. Every new entry belongs to a registered type whose provider was invoked, and each provider is invoked at most once. No error implies a value. A returned value is the one now cached for the type. When the type's own provider ran, it was called on the cached instances of its parameters. The result is its first return value, and its error is passed on only when the provider has two results. |
| Resolution.ResolveArgs | container.go:112-119 | The parameter loop only grows the cache and invokes each provider at most once. When it succeeds, every parameter type is cached and the arguments are their cached instances, in declaration order. |
| Resolution.ArgsErrPersists | container.go:115-117 | After the first failing parameter, the remaining parameters are not looked at. |
| Resolution.ArgsFirstFailure | container.go:113-119 | A failed parameter loop failed at a position where all earlier parameters resolved. The loop's error, cache and trace are exactly those of that failing resolution. |
| Resolution.FailsAtLonger | container.go:113-117 | A failure position stays the failure position when more parameters follow it. |
| Resolution.ResolveCached | container.go:98-102 | A cached type returns its cached instance with a nil error. Nothing is invoked and the cache is unchanged. This is what makes each type a singleton. |
| Resolution.ResolveNotProvided | container.go:104-107 | A type that is neither cached nor registered gives `NotProvided` for it, and nothing is cached. |
| Resolution.ResolveParameterFails | container.go:112-119 | When a parameter fails, its error is returned and no value is returned. The provider is not invoked and the type is not cached. Entries cached by earlier parameters stay. |
| Resolution.ResolveInvokes | container.go:121-135 | When all parameters resolve, the provider is invoked once, after everything they invoked. The type is then cached with the value returned, whatever the error. |
| Resolution.ResolveAgain | container.go:99-101 | After a resolution has cached a type, resolving it again returns the same instance with a nil error, even when the first call returned the provider's error. It invokes nothing and leaves the cache as it is. |
| Resolution.Consume | container.go:68-90 | A non-function consumer gives `NotConsumerFunction`, and a consumer with results gives `NotConsumerFunctionWith0Results`. The consumer is called if and only if there is no error, and then with the cached instances of its parameter types, in order. The cache only grows. |
| Resolution.ConsumeFailsAtFirst | container.go:79-84 | When a parameter of a well-formed consumer fails, `Consume` returns exactly that parameter's resolution error. The parameters before it all resolved and the loop stopped there. |
| Resolution.ResolveKeepsClosed | container.go:112-133 | When every cached registered type has its parameter types cached, resolution keeps that true. |
| Resolution.ResolveArgsKeepsClosed | container.go:112-119 | The parameter loop keeps every cached registered type's parameter types cached. |
| Resolution.ConsumeCachesNeeds | container.go:79-88 | Starting from a cache in which every cached registered type has its parameter types cached (`New`'s empty cache is one, and `ResolveKeepsClosed` keeps it so), after `Consume` succeeds every parameter type is cached and so is everything it transitively needs. A cache that holds a type without its dependencies, such as a literal with only `*bar` cached, stays without them. |
| Resolution.AvailableGrows | container.go:99-101 | A type that can be had from a cache can still be had from any larger cache. |
| Resolution.ResolveSucceeds | container.go:98-136 | Resolution succeeds whenever the type is cached or providable all the way down and no provider returns an error. `NotProvided` and a provider's error are the only ways it fails. |
| Resolution.ResolveArgsSucceed | container.go:112-119 | The parameter loop succeeds whenever each parameter type can be had and no provider returns an error. |
| Resolution.ConsumeSucceeds | container.go:68-90 | A well-formed consumer whose parameter types can all be had is called, with no error, when no provider returns an error. |
| Teardown.Message | container.go:164-168 | A `multiError` prints as "[" + its errors' texts joined by single spaces + "]", as `%v` prints a slice of errors. Every other error prints as the code's format string gives it (container.go:24, 44, 49, 55, 61, 73, 76, 106). "not a provider function: ", "duplicated provider: ", "not a consumer function: ", "not a consumer function with 0 results: " and "not provided: " are each followed by the type. "not a provider function with error: " is followed by both types. `New`'s wrapping prints "failed to provide: " followed by the wrapped error's full text. An error a provider or `Close` returned prints its own text. |
| Teardown.FailureOf | container.go:140-148 | Closing one instance contributes at most one error, and one exactly when it is closable and its `Close` fails. |
| Teardown.FailuresRemove | container.go:140-149 | The failures gathered do not depend on the order the instances are visited in: any instance can be closed first. |
| Teardown.NoFailuresIff | container.go:151-155 | No failure is gathered if and only if no closable cached instance fails to close. |
| Teardown.FailuresFrom | container.go:146-148 | Every gathered error is the `Close` error of some closable cached instance. |
| Teardown.SplitJoin | container.go:166-168 | Words without spaces, joined by single spaces, split back into the same words. |
| Teardown.MultiMessage | container.go:164-168 | A `multiError` prints as its errors' texts inside brackets. When no text holds a space, the printed text determines those texts. |
| Teardown.OneFailureMessage | container.go:166-168 | An aggregate of one error prints as that error's text in brackets. |
| Teardown.PairOrder | container.go:139-149 | Two gathered errors appear in one order or the other. |
| Teardown.PairMessage | container.go:166-168 | An aggregate of two errors prints as their texts, in order, separated by a space, in brackets. |
| Teardown.TwoFailuresMessage | container.go:164-168 | Two gathered errors print in one order or the other, whichever order the map was visited in. |
| Teardown.OneOfTwoFails | container_test.go:186-204 | Of two instances, one closable and failing with `e` and the other not closable or not failing, the failures gathered are exactly `e`. |
| Teardown.BothOfTwoFail | container_test.go:206-229 | Two closable instances that both fail contribute both errors. |
| Teardown.OneFailureText | container_test.go:186-204 | With one closable instance failing with "test" and one instance that is not closable (the test's `*bar`), `Close` reports "[test]". |
| Teardown.TwoFailuresText | container_test.go:206-229 | With two closable instances failing with "1" and "2", `Close` reports "[1 2]" or "[2 1]". |
| Di.Container.constructor | container.go:11-20 | A container holds exactly the maps given and satisfies the class invariant. |
| Di.Container.New | container.go:16-29 | When the providers are acceptable, `New` returns a new valid container with the registry `Registry.Build` describes and an empty cache. Otherwise it returns nil and the wrapped error of the first refused provider. |
| Di.Container.Provide | container.go:41-66 | `provide` updates the registry in place exactly as `Registry.Provide` says. A refusal leaves the registry as it was. The class invariant is kept. |
| Di.Container.Instance | container.go:98-136 | `instance` returns the value and error `Resolution.Resolve` gives. It leaves that function's cache in `instances` and appends the providers it invoked to the trace. The class invariant is kept. |
| Di.Container.Arguments | container.go:112-119 | The argument loop returns what `Resolution.ResolveArgs` gives, and leaves its cache and trace. |
| Di.Container.Consume | container.go:68-90 | `Consume` returns the error `Resolution.Consume` gives, calls the consumer with the arguments it gives, and leaves its cache and trace. |
| Di.Container.Close | container.go:138-156 | `Close` returns nil exactly when no closable instance fails to close. Otherwise it returns a `multiError` whose errors, as a multiset, are exactly the failing instances' errors. It closes each closable instance once and skips the rest. |

## Left out

- Reflection (`reflect.TypeOf`, `ValueOf`, `Kind`, `NumIn`, `NumOut`, `Implements`, `Call`) is replaced by the `Signature` descriptor and a `call` function. The `io.Closer` assertion becomes a `closable` flag on an instance.
- A provider's side effects and fresh allocations are reduced to a pure `call` on its arguments. Which providers were invoked, and in what order, is kept as the ghost trace `invoked`.
- The consumer's body is not run. `Di.Container.Consume` returns the argument list it would be called with.
- `MustNew`, `MustConsume` and `MustClose` (container.go:31-37, 92-96, 158-162) only panic on an error, so they are not modelled.
- Dependency cycles: `Resolve`, `Instance` and `Consume` require a `rank` witnessing that the registry is acyclic. The code's endless recursion on a cycle is not modelled.
- Go's map iteration order in `Close` is a nondeterministic choice. Results are stated as multisets and sets.
- The `args` slice is a sequence built by appending, not a preallocated array filled by index. The result is the same.
- A failing provider's value is cached as-is and treated like any other instance. In the tests `newQux` returns a nil `*qux` (container_test.go:40-42), and `(*qux).Close` writes through its receiver (container_test.go:44-47), so closing that cached nil pointer would panic in Go. The model has no nil pointers and does not capture that panic.
- Nothing stops resolution after `Close`, and `Close` does not clear the cache. The model, like the code, leaves the container usable afterwards.
- Error texts follow the code's format strings. `%s` of a Go type is the `TypeId` itself, and `xerrors` frame information is left out.
- Concurrency: the container is single-threaded, and the model is too.
- An instance's `Close` is its fixed `closeErr`. Its effects (such as the tests' `closed` flag, container_test.go:20-23, 44-47) are represented only by the `closed` list `Di.Container.Close` returns, and a repeated `Close`, which in Go runs each `Close` again and may fail differently, is not modelled.
- Resolution.Acyclic is required of the whole registry, not just of the types a resolution reaches. A registry with a cycle the resolved type never reaches, which the code resolves fine (A and B needing each other, C resolved), is outside the model.
- `TypeId` is the type's printed name, so two distinct Go types that print alike would be one type in the model.
- `New(nil)` and `Consume(nil)` panic inside reflection (container.go:42-43, 69-71). The model has no nil function value, so these panics are not modelled.
