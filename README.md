# DispatchR notification dispatcher — a Dafny model

DispatchR is an in-process notification dispatcher for .NET. Handler objects
and handler factories are registered per notification type. A notification is
then dispatched as each type in its type list: its runtime type, each base type
up to and including the root `System.Object`, and each interface it implements.
For every such type the registered synchronous handlers run in order, then the
asynchronous ones. Each handler passes through a fixed chain of checks before it
is invoked. A UI component base class registers itself as a handler when it is
initialized and asks to be unregistered when it is disposed.

The model has four modules.

- `TypeModel` (`TypeModel.dfy`) holds what reflection reports about types. It
  is one `TypeSystem` value with function fields: base type, implemented
  interfaces, assignability, and the handle method's return type. It also holds
  the base-type walk, the dispatch type list, and the scan of a handler class's
  interfaces for the notification types it declares.
- `HandlerRegistry` (`HandlerRegistry.dfy`) holds the registry classes.
  - `InstanceHandlers`, `ServiceHandlers` and `Handlers` are classes whose
    `map<Type, seq<_>>` fields their methods reassign.
  - `Handlers.Model()` is a `Registry` snapshot of the four tables. The pure
    functions `WithInstance`, `WithFactory`, `WithoutInstance` and `Resolve`
    specify registration, unregistration and lookup.
- `Dispatching` (`Dispatching.dfy`) holds the per-handler validation chain and
  the `Dispatcher` class.
  - A dispatch is described by its trace: one `Branch` per dispatch type, and
    within it one `Step` per handler, recording the handler's outcome.
  - The outcome is either invoked, with whether the state-change hook fired,
    or rejected, with the first failing check.
  - The `Dispatcher` methods walk the types with the source's own loops. Each
    is proved equal to the trace functions.
- `Components` (`DispatcherComponent.dfy`) holds the component base class as a
  class with its lifecycle methods.

Reflection, the service provider, and the components that switched their
state-change hook off are parameters. These are the `TypeSystem`, the
`ServiceProvider` function (`None` stands for a null result) and `hookOff`.

The walk up the base types follows the loop in `src/DispatchR/Dispatcher.cs`
lines 56-61. It stops only when `BaseType` is null, so the root type
`System.Object` is dispatched too.

## Model

| member | source | states |
|---|---|---|
| TypeModel.DispatchTypes | src/DispatchR/Dispatcher.cs:42-70 | Decides the types a notification is dispatched as: the base-type walk, then the implemented interfaces; its properties are the lemmas below. |
| TypeModel.NotificationTypesHandledBy | src/DispatchR/Handlers.cs:75-76 | Decides the notification types a class handles synchronously: the arguments of its `INotificationHandler<>` interfaces (`HandledTypes`). |
| TypeModel.AsyncNotificationTypesHandledBy | src/DispatchR/Handlers.cs:78-79 | Decides the notification types a class handles asynchronously: the arguments of its `IAsyncNotificationHandler<>` interfaces. |
| TypeModel.BaseChain | src/DispatchR/Dispatcher.cs:56-61 | The base-type walk starts with the runtime type and is never empty. |
| TypeModel.BaseChainIsTheWalk | src/DispatchR/Dispatcher.cs:56-61 | The walk moves from each type to its base type and ends at a type with no base type. It is the only sequence doing so. |
| TypeModel.BaseChainDescends | src/DispatchR/Dispatcher.cs:56-61 | The walk terminates: ranks strictly decrease along it, so its length is at most the starting rank plus one. |
| TypeModel.BaseChainHasNoInterfaces | src/DispatchR/Dispatcher.cs:53-63 | Walking up from a class visits only classes. |
| TypeModel.DispatchTypesDistinct | src/DispatchR/Dispatcher.cs:42-70 | No type occurs twice in a notification's dispatch type list (base types, then interfaces). |
| TypeModel.DispatchTypesOfThreeLevelClass | src/DispatchR/Dispatcher.cs:53-70 | A class `T : A : Object` implementing `[I1, I2]` is dispatched as `[T, A, Object, I1, I2]`, root included. |
| TypeModel.HandledTypes | src/DispatchR/Handlers.cs:84-91 | `x` is reported exactly when `Generic(def, x)` is among the interfaces, and no more types are reported than there are interfaces. |
| TypeModel.HandledTypesDistinct | src/DispatchR/Handlers.cs:84-91 | Distinct interfaces give distinct declared notification types. |
| TypeModel.MixedHandlerDeclarations | test/DispatchR.Tests/HandlersShould.cs:10-33 | A class implementing the synchronous handler for `string` and the asynchronous one for `int` declares `[string]` and `[int]`. |
| HandlerRegistry.Instantiate | src/DispatchR/Handlers.cs:81-82 | A wrapped factory returns the provider's object, or an `InstantiationFailure` carrying the handler type when that is null. |
| HandlerRegistry.InstantiateAll | src/DispatchR/Handlers.cs:131-134 | Calling a factory list gives one result per factory, in order. |
| HandlerRegistry.AppendEachLookup | src/DispatchR/Handlers.cs:104-113 | Repeated `Add` appends the entry once per occurrence of the key, so duplicates are kept. Other keys are unchanged. |
| HandlerRegistry.AppendEachDistinct | src/DispatchR/Handlers.cs:33-46 | With distinct keys, each listed key gets the entry appended exactly once and every other key is unchanged. |
| HandlerRegistry.RemoveFirst | src/DispatchR/Handlers.cs:121 | Removing an absent element leaves the list as it is. |
| HandlerRegistry.RemoveFirstMultiset | src/DispatchR/Handlers.cs:121 | List removal takes away exactly one copy of the element, and nothing else. |
| HandlerRegistry.RemoveFirstAt | src/DispatchR/Handlers.cs:121 | List removal takes out the first occurrence and keeps the order of the rest. |
| HandlerRegistry.RemoveFirstUndoesAppend | src/DispatchR/Handlers.cs:115-123 | Removing an element just appended to a list without it gives back the list. |
| HandlerRegistry.RemoveEachDistinct | src/DispatchR/Handlers.cs:48-61 | With distinct keys, intended unregistration removes the instance once from each listed key's list and leaves the others. |
| HandlerRegistry.ResolveOrder | src/DispatchR/Handlers.cs:63-73 | For each kind, lookup gives the instance entries in order, then one result per factory in order. The length is the sum of the two. |
| HandlerRegistry.ResolveAfterRegister | src/DispatchR/Handlers.cs:33-46 | After registering an instance, it sits once after the existing instances of each declared type, and nowhere else. |
| HandlerRegistry.ResolveAfterRegisterFactory | src/DispatchR/Handlers.cs:18-31 | Registering a factory appends the same wrapped factory once per declared type and kind. The instance tables are untouched. |
| HandlerRegistry.DiscardEachUnchanged | src/DispatchR/Handlers.cs:115-123 | Any number of as-written `Remove` calls leave the table as it was. |
| HandlerRegistry.UnregisterAsWrittenChangesNothing | src/DispatchR/Handlers.cs:48-61 | As-written unregistration leaves all four tables of the registry as they were. |
| HandlerRegistry.UnregisteredInstanceStillResolved | src/DispatchR/Handlers.cs:48-61 | As written, an instance registered and then unregistered is still looked up for every synchronous and every asynchronous notification type it declares. |
| HandlerRegistry.ResolveCountAfterRegister | src/DispatchR/Handlers.cs:33-46 | An instance absent from the synchronous list of a type it declares occurs in it exactly once after registration. |
| HandlerRegistry.ResolveAsyncCountAfterRegister | src/DispatchR/Handlers.cs:33-46 | An instance absent from the asynchronous list of a type it declares asynchronously occurs in it exactly once after registration. |
| HandlerRegistry.UnregisterUndoesRegister | src/DispatchR/Handlers.cs:48-61 | Intended unregistration restores every list an earlier registration changed, given the instance was not registered before. |
| HandlerRegistry.InstanceHandlers.constructor | src/DispatchR/Handlers.cs:96-97 | The table starts empty. |
| HandlerRegistry.InstanceHandlers.GetHandlers | src/DispatchR/Handlers.cs:99-102 | A type with no entry has no handlers; otherwise its stored list. |
| HandlerRegistry.InstanceHandlers.Add | src/DispatchR/Handlers.cs:104-113 | The list for the type becomes the old list (or the empty list) with the handler appended. Every other key is unchanged. |
| HandlerRegistry.InstanceHandlers.Remove | src/DispatchR/Handlers.cs:115-123 | As written, the table is unchanged. |
| HandlerRegistry.InstanceHandlers.RemoveIntended | src/DispatchR/Handlers.cs:115-123 | The first copy of the handler is removed from the type's list, if the type has an entry. |
| HandlerRegistry.ServiceHandlers.constructor | src/DispatchR/Handlers.cs:128-129 | The table starts empty. |
| HandlerRegistry.ServiceHandlers.GetHandlers | src/DispatchR/Handlers.cs:131-134 | A type with no entry has no handlers; otherwise one result per stored factory, in order. |
| HandlerRegistry.ServiceHandlers.Add | src/DispatchR/Handlers.cs:136-145 | The factory list for the type gets the factory appended. Every other key is unchanged. |
| HandlerRegistry.Handlers.constructor | src/DispatchR/Handlers.cs:8-16 | Four distinct, fresh, empty tables. |
| HandlerRegistry.Handlers.RegisterFactory | src/DispatchR/Handlers.cs:18-31 | The registry becomes `WithFactory` of the old one: one wrapped factory per declared synchronous type and per declared asynchronous type. |
| HandlerRegistry.Handlers.Register | src/DispatchR/Handlers.cs:33-46 | The registry becomes `WithInstance` of the old one: the instance once per declared type and kind. |
| HandlerRegistry.Handlers.Unregister | src/DispatchR/Handlers.cs:48-61 | The registry becomes `UnregisterAsWritten` of the old one: each loop discards its `Remove`'s result, so the registry is unchanged. |
| HandlerRegistry.Handlers.UnregisterIntended | src/DispatchR/Handlers.cs:48-61 | The registry becomes `WithoutInstance` of the old one. |
| HandlerRegistry.Handlers.GetHandlers | src/DispatchR/Handlers.cs:63-73 | The concatenation of the four tables' lookups equals `Resolve` on the snapshot, whose order `ResolveOrder` states. |
| Dispatching.InstantiationFailedFor | src/DispatchR/Dispatcher.cs:140-149 | Decides the first check: the handler is the placeholder a factory leaves when the provider gave null. |
| Dispatching.CannotBeAssignedTo | src/DispatchR/Dispatcher.cs:164-173 | Decides the second check: the handler's runtime type is not assignable to the closed handler interface for the dispatch type. |
| Dispatching.MethodNotFoundOn | src/DispatchR/Dispatcher.cs:151-162 | Decides the third check: reflection finds no `Handle`/`HandleAsync` taking the dispatch type on that interface. |
| Dispatching.IsNotAsync | src/DispatchR/Dispatcher.cs:175-184 | Decides the asynchronous-only check: the handle method's return type is anything other than exactly `Task`. |
| Dispatching.DeclaredHandlerPassesChecks | src/DispatchR/Dispatcher.cs:140-184 | An object whose class declares the handler interface of a kind passes all checks of that kind; a failed instantiation always fails the first. |
| Dispatching.StateChangeIfComponent | src/DispatchR/Dispatcher.cs:186-193 | Decides whether the hook fires: the handler derives from `DispatcherComponent` and has not switched `StateChangeOnHandle` off. |
| Dispatching.HandlersOfKind | src/DispatchR/Handlers.cs:148-150 | Selects one of the two lists of the `HandlersForDispatch` record: the synchronous handlers or the asynchronous ones. |
| Dispatching.DispatchIfHandler | src/DispatchR/Dispatcher.cs:84-97 | A synchronous handler is invoked iff it is not an instantiation failure, is assignable to the synchronous handler interface, and `Handle` is found. When invoked, the hook fires iff it is a component with the hook on. It is never rejected for the return type. |
| Dispatching.DispatchIfAsyncHandler | src/DispatchR/Dispatcher.cs:99-114 | An asynchronous handler is invoked iff it passes the same checks against the asynchronous interface and `HandleAsync` returns exactly `Task`. When invoked, the hook fires as above. |
| Dispatching.ValidationIsFirstFailingCheck | src/DispatchR/Dispatcher.cs:84-114 | The outcome is the reason of the first failing check in the order instantiation, assignability, method found, then (asynchronous only) return type; with no failing check, the handler is invoked. |
| Dispatching.BranchStepsInOrder | src/DispatchR/Dispatcher.cs:72-82 | Within a branch, every synchronous handler gets its own step in order, then every asynchronous one. No asynchronous step comes before a synchronous one, and a rejected handler does not stop its siblings. |
| Dispatching.HookOnlyAfterInvocation | src/DispatchR/Dispatcher.cs:186-193 | In every branch of a dispatch, a step fires the state-change hook iff its handler passed all checks and is a component with the hook on. |
| Dispatching.TraceDispatchesEachTypeOnce | src/DispatchR/Dispatcher.cs:42-51 | A dispatch has one branch per dispatch type, in the list's order, and no type is dispatched twice. |
| Dispatching.RegisteredInstanceIsInvoked | src/DispatchR/Dispatcher.cs:72-97 | A registered instance that implements the synchronous handler for a type in the notification's dispatch list is invoked in that type's branch. |
| Dispatching.RegisteredInstancePosition | src/DispatchR/Handlers.cs:63-73 | A newly registered instance is found among the synchronous handlers of each type it declares. |
| Dispatching.RegisteredAsyncInstanceIsInvoked | src/DispatchR/Dispatcher.cs:72-82 | A registered instance that implements the asynchronous handler for a type in the notification's dispatch list is invoked asynchronously in that type's branch. |
| Dispatching.RegisteredAsyncInstancePosition | src/DispatchR/Handlers.cs:63-73 | A newly registered instance is found among the asynchronous handlers of each type it declares asynchronously. |
| Dispatching.AsyncStepOfBranch | src/DispatchR/Dispatcher.cs:78-81 | The step after all synchronous ones plus `j` is the j-th asynchronous handler's validation outcome. |
| Dispatching.SyncStepOfBranch | src/DispatchR/Dispatcher.cs:74-76 | The j-th step of a branch is the j-th synchronous handler's validation outcome. |
| Dispatching.StepCountConcat | src/DispatchR/Dispatcher.cs:72-82 | Counting a handler's steps of one kind is additive over concatenated step lists. |
| Dispatching.StepCountOfSteps | src/DispatchR/Dispatcher.cs:74-81 | A loop over a handler list of one kind gives a handler one step of that kind per occurrence in the list, and no step of the other kind. |
| Dispatching.StepCountOfBranch | src/DispatchR/Dispatcher.cs:72-82 | The branch for type `N` gives a handler one step of each kind per occurrence in the looked-up list of that kind for `N`. |
| Dispatching.StepsAsExtend | src/DispatchR/Dispatcher.cs:42-70 | Adding a branch adds its count only when it is dispatched as the type counted. |
| Dispatching.StepsAsOfBranches | src/DispatchR/Dispatcher.cs:42-70 | Over distinct types, a handler's steps of one kind as `N` number its occurrences in the list of that kind for `N` when `N` is listed, and zero otherwise. |
| Dispatching.TraceStepsPerType | src/DispatchR/Dispatcher.cs:42-82 | In a whole dispatch, a handler runs synchronously (asynchronously) as `N` once per occurrence in the looked-up synchronous (asynchronous) list for `N` if `N` is a dispatch type, and never otherwise. |
| Dispatching.RegisteredInstanceDispatchedOnce | src/DispatchR/Dispatcher.cs:42-82 | An instance registered once, absent from the synchronous lists for `N` before and declaring `INotificationHandler<N>`, gets exactly one synchronous step as `N` in the dispatch. |
| Dispatching.RegisteredAsyncInstanceDispatchedOnce | src/DispatchR/Dispatcher.cs:42-82 | An instance registered once, absent from the asynchronous lists for `N` before and declaring `IAsyncNotificationHandler<N>`, gets exactly one asynchronous step as `N` in the dispatch. |
| Dispatching.BranchesForConcat | src/DispatchR/Dispatcher.cs:44-47 | Dispatching up the base types and then across the interfaces gives the branches of the whole list. |
| Dispatching.Dispatcher.constructor | src/DispatchR/Dispatcher.cs:15-23 | The dispatcher keeps the provider callback and starts with an empty registry. |
| Dispatching.Dispatcher.RegisterType | src/DispatchR/Dispatcher.cs:25-29 | The installed factory asks the provider for exactly the handler type. |
| Dispatching.Dispatcher.Register | src/DispatchR/Dispatcher.cs:31-32 | The registry becomes `WithInstance` of the old one. |
| Dispatching.Dispatcher.Unregister | src/DispatchR/Dispatcher.cs:34-35 | The registry becomes `UnregisterAsWritten` of the old one, which is the old one. |
| Dispatching.Dispatcher.UnregisterIntended | src/DispatchR/Dispatcher.cs:34-35 | The registry becomes `WithoutInstance` of the old one. |
| Dispatching.Dispatcher.DispatchAs | src/DispatchR/Dispatcher.cs:72-82 | The two loops over the looked-up handlers produce exactly `BranchFor` of the current registry. |
| Dispatching.Dispatcher.DispatchUpBaseTypes | src/DispatchR/Dispatcher.cs:53-63 | The `while` loop over `BaseType` produces one branch per type of the base-type walk, in order. |
| Dispatching.Dispatcher.DispatchAcrossInterfaces | src/DispatchR/Dispatcher.cs:65-70 | One branch per implemented interface, in order. |
| Dispatching.Dispatcher.DispatchAndWait | src/DispatchR/Dispatcher.cs:42-51 | The whole dispatch equals `Trace`, so the lemmas on `Trace` apply to it. |
| Dispatching.Dispatcher.Dispatch | src/DispatchR/Dispatcher.cs:37-40 | The dispatch it starts is the same `Trace` as `DispatchAndWait`'s. The caller drops it. |
| Components.IsHandlerType | src/DispatchR/DispatcherComponent.cs:17-18 | Decides `_isHandler`: the class declares at least one synchronous or asynchronous notification type. |
| Components.IsHandlerTypeIff | src/DispatchR/DispatcherComponent.cs:14-19 | A type is a handler type iff one of its interfaces is the synchronous or asynchronous handler interface for some notification type. |
| Components.DispatcherComponent.constructor | src/DispatchR/DispatcherComponent.cs:10-19 | `_isHandler` is computed from the component's class, and `StateChangeOnHandle` starts true. |
| Components.DispatcherComponent.OnInitialized | src/DispatchR/DispatcherComponent.cs:21-28 | The component is registered iff it is a handler, and the derived hook runs afterwards in both cases. |
| Components.DispatcherComponent.Dispose | src/DispatchR/DispatcherComponent.cs:37-45 | As written, the registry is unchanged whether or not the component is a handler. |
| Components.DispatcherComponent.DisposeIntended | src/DispatchR/DispatcherComponent.cs:37-45 | The component is removed iff it is a handler; a non-handler leaves the registry alone. |
| Components.DispatcherComponent.SetStateChangeOnHandle | src/DispatchR/DispatcherComponent.cs:10 | The flag takes the given value and nothing else changes. |
| Components.HookFollowsStateChangeOnHandle | src/DispatchR/Dispatcher.cs:186-193 | For a component handler, the hook fires after handling iff its `StateChangeOnHandle` is on. |
| Components.InitializeThenDispose | src/DispatchR/DispatcherComponent.cs:21-45 | As written, a component that was initialized and then disposed is still looked up, for every type at once, for each synchronous and each asynchronous type its class declares. |
| Components.InitializeThenDisposeIntended | src/DispatchR/DispatcherComponent.cs:21-45 | With intended unregistration, initializing and then disposing a component that was in no instance list leaves every instance list of every type, and both factory tables, as they were. |

## Left out

- Reflection itself is not modelled: `MakeGenericType`, `GetMethod`, `IsAssignableFrom`, `GetInterfaces`, `BaseType` and `MethodInfo.Invoke`. Each becomes a field of the `TypeSystem` value. Only generic types with one argument are represented, which is all the handler interfaces need.
- Invoking a handler is not modelled: what its `Handle`/`HandleAsync` does, exceptions it throws, and re-entrant calls into the dispatcher. A step records only that the handler was invoked.
- Tasks and `await` are left out: `Task.WhenAll` and the completion of asynchronous handlers. A dispatch is the ordered trace of its steps.
- `Dispatch` forwards to `DispatchAndWait` and discards the returned `Task`. The model returns the dispatch it starts. The difference, not waiting for asynchronous handlers, lies in task scheduling, which is not modelled.
- Concurrency is left out, including the unsynchronised reassignment of the table fields.
- Logging (`DispatcherLog`, `DispatcherDebug`, `DispatcherErrors`) is left out. The rejection reason stands in for the error that would be logged.
- Dependency-injection wiring (`DispatcherConfig`, `ServiceCollectionExtensions`) is left out. The service provider is a function parameter, and the component's injected dispatcher is a constructor parameter.
- The loggers the `Dispatcher` constructor obtains from the service provider are left out.
- A factory call is a function of the provider, so repeated lookups give equal results. Fresh objects per call and provider exceptions are not represented.
- The shipped wiring passes `GetRequiredService` as the provider (`src/DispatchR/ServiceCollectionExtensions.cs` line 17). That call throws instead of returning null. So the `None` → `InstantiationFailure` path arises only with a provider that returns null. With the shipped wiring, a missing service throws out of `Handlers.GetHandlers` (`src/DispatchR/Handlers.cs` lines 66 and 133) and aborts the remaining branches of that dispatch. The model does not capture that abort.
- The component framework is left out: `ComponentBase`, `InvokeAsync(StateHasChanged)` and `GC.SuppressFinalize`.
- Which components have their hook off is the `hookOff` parameter, fixed for the whole dispatch and related to the components' flags by `Components.HookOff`. The source reads `StateChangeOnHandle` after each invocation (`src/DispatchR/Dispatcher.cs` lines 96, 113 and 186-193). A handler that changes its own or another component's flag during the dispatch is therefore not captured.
- HandlerRegistry.RemoveFirst compares handler objects by identity. `ImmutableList.Remove` (`src/DispatchR/Handlers.cs` line 121) uses the default equality comparer, so a handler class that overrides `Equals`, such as a C# record, would lose an equal but distinct instance. This affects only the intended removal, since the as-written one changes nothing.
- The derived class's `OnInitializedAndRegistered` body is left out. The model records only that it ran.

## Findings

| source | as written | input that shows it | evidently intended | confidence | as-written member | corrected member |
|---|---|---|---|---|---|---|
| src/DispatchR/Handlers.cs:119-121 | `Remove` computes the updated dictionary with `SetItem` and discards it, so unregistering leaves every table unchanged | register an instance of a class implementing `INotificationHandler<N>`, then unregister it: the lookup for `N` still lists it, and a disposed component keeps receiving notifications | assign the result back to `_handlers`, so that the first copy of the handler leaves the list | not executed | HandlerRegistry.UnregisteredInstanceStillResolved | HandlerRegistry.UnregisterUndoesRegister |

The as-written path is `InstanceHandlers.Remove`, the pure `DiscardEach` and
`UnregisterAsWritten`, `Handlers.Unregister`, `Dispatcher.Unregister`,
`DispatcherComponent.Dispose` and `Components.InitializeThenDispose`. The corrected path is `RemoveIntended`,
`UnregisterIntended`, `DisposeIntended` and
`Components.InitializeThenDisposeIntended`; each has its proved contract.
