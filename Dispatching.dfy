/** The dispatch engine: which types a notification is dispatched as, which
    handlers each type reaches, and what happens to each handler. A dispatch is
    described by the trace of per-handler outcomes it produces. */
module Dispatching {
  import opened TypeModel
  import opened HandlerRegistry

  datatype Kind = Sync | Async

  /** The reasons a handler is skipped, one per check of the validation chain. */
  datatype Rejection = InstantiationFailed | CannotBeAssigned | MethodNotFound | NotAsync

  datatype Outcome = Invoked(stateChanged: bool) | Rejected(reason: Rejection)

  /** What happened to one handler in one type branch. */
  datatype Step = Step(kind: Kind, dispatchAs: Type, handler: Obj, outcome: Outcome)

  /** One type branch: the steps of its synchronous handlers, then of its asynchronous ones. */
  datatype Branch = Branch(dispatchAs: Type, steps: seq<Step>)

  /** The handler interface a handler of `kind` must implement to receive `dispatchAs`. */
  function ExpectedHandlerType(kind: Kind, dispatchAs: Type): Type {
    match kind
    case Sync => Generic(SyncHandlerDef, dispatchAs)
    case Async => Generic(AsyncHandlerDef, dispatchAs)
  }

  predicate InstantiationFailedFor(h: Obj) {
    h.InstantiationFailure?
  }

  predicate CannotBeAssignedTo(ts: TypeSystem, h: Obj, expected: Type) {
    !ts.assignable(expected, TypeOf(h))
  }

  predicate MethodNotFoundOn(ts: TypeSystem, expected: Type) {
    ts.invokeMethod(expected).None?
  }

  predicate IsNotAsync(returnType: Type) {
    returnType != TaskType
  }

  /** An object whose class declares the handler interface of `kind` for
      `dispatchAs` passes every check of that kind, while a failed
      instantiation fails the first one whatever it was meant to be. */
  lemma DeclaredHandlerPassesChecks(ts: TypeSystem, kind: Kind, h: Obj, dispatchAs: Type)
    requires ts.InterfacesAssignable() && ts.StandardHandlerShapes()
    requires h.Object? && ExpectedHandlerType(kind, dispatchAs) in ts.interfaces(TypeOf(h))
    ensures var expected := ExpectedHandlerType(kind, dispatchAs);
      && !InstantiationFailedFor(h)
      && !CannotBeAssignedTo(ts, h, expected)
      && !MethodNotFoundOn(ts, expected)
      && (kind == Async ==> !IsNotAsync(ts.invokeMethod(expected).value))
    ensures InstantiationFailedFor(InstantiationFailure(TypeOf(h)))
  {
    var expected := ExpectedHandlerType(kind, dispatchAs);
    assert ts.assignable(expected, TypeOf(h));
    match kind
    case Sync => assert expected == Generic(SyncHandlerDef, dispatchAs);
    case Async => assert expected == Generic(AsyncHandlerDef, dispatchAs);
  }

  /** The hook fires for a `DispatcherComponent` whose `StateChangeOnHandle` is
      on; `hookOff` holds the components that have switched it off. */
  predicate StateChangeIfComponent(ts: TypeSystem, h: Obj, hookOff: set<Obj>)
    requires ts.Acyclic()
  {
    ComponentType in BaseChain(ts, TypeOf(h)) && h !in hookOff
  }

  /** `DispatchIfHandler`: the three checks in order; the first failing one skips the handler. */
  function DispatchIfHandler(ts: TypeSystem, h: Obj, dispatchAs: Type, hookOff: set<Obj>): (r: Outcome)
    requires ts.Acyclic()
    ensures r.Invoked? <==>
      && !InstantiationFailedFor(h)
      && !CannotBeAssignedTo(ts, h, Generic(SyncHandlerDef, dispatchAs))
      && !MethodNotFoundOn(ts, Generic(SyncHandlerDef, dispatchAs))
    ensures r.Invoked? ==> r.stateChanged == StateChangeIfComponent(ts, h, hookOff)
    ensures r != Rejected(NotAsync)
  {
    var expected := Generic(SyncHandlerDef, dispatchAs);
    if InstantiationFailedFor(h) then Rejected(InstantiationFailed)
    else if CannotBeAssignedTo(ts, h, expected) then Rejected(CannotBeAssigned)
    else if MethodNotFoundOn(ts, expected) then Rejected(MethodNotFound)
    else Invoked(StateChangeIfComponent(ts, h, hookOff))
  }

  /** `DispatchIfAsyncHandler`: the same three checks against the asynchronous
      interface, then the return-type check. */
  function DispatchIfAsyncHandler(ts: TypeSystem, h: Obj, dispatchAs: Type, hookOff: set<Obj>): (r: Outcome)
    requires ts.Acyclic()
    ensures r.Invoked? <==>
      && !InstantiationFailedFor(h)
      && !CannotBeAssignedTo(ts, h, Generic(AsyncHandlerDef, dispatchAs))
      && ts.invokeMethod(Generic(AsyncHandlerDef, dispatchAs)) == Some(TaskType)
    ensures r.Invoked? ==> r.stateChanged == StateChangeIfComponent(ts, h, hookOff)
  {
    var expected := Generic(AsyncHandlerDef, dispatchAs);
    if InstantiationFailedFor(h) then Rejected(InstantiationFailed)
    else if CannotBeAssignedTo(ts, h, expected) then Rejected(CannotBeAssigned)
    else if MethodNotFoundOn(ts, expected) then Rejected(MethodNotFound)
    else if IsNotAsync(ts.invokeMethod(expected).value) then Rejected(NotAsync)
    else Invoked(StateChangeIfComponent(ts, h, hookOff))
  }

  /** The validation chain as an ordered list of (check fails, reason) pairs. */
  function Checks(ts: TypeSystem, kind: Kind, h: Obj, dispatchAs: Type): seq<(bool, Rejection)> {
    var expected := ExpectedHandlerType(kind, dispatchAs);
    var common := [(InstantiationFailedFor(h), InstantiationFailed),
                   (CannotBeAssignedTo(ts, h, expected), CannotBeAssigned),
                   (MethodNotFoundOn(ts, expected), MethodNotFound)];
    match kind
    case Sync => common
    case Async => common + [(ts.invokeMethod(expected) != Some(TaskType), NotAsync)]
  }

  /** The reason of the first failing check, if any. */
  function FirstFailure(checks: seq<(bool, Rejection)>): Option<Rejection> {
    if checks == [] then None
    else if checks[0].0 then Some(checks[0].1)
    else FirstFailure(checks[1..])
  }

  lemma FirstFailureOfOne(check: (bool, Rejection))
    ensures FirstFailure([check]) == if check.0 then Some(check.1) else None
  {
    assert [check][1..] == [];
  }

  function Validate(ts: TypeSystem, kind: Kind, h: Obj, dispatchAs: Type, hookOff: set<Obj>): Outcome
    requires ts.Acyclic()
  {
    match kind
    case Sync => DispatchIfHandler(ts, h, dispatchAs, hookOff)
    case Async => DispatchIfAsyncHandler(ts, h, dispatchAs, hookOff)
  }

  /** Each handler's outcome is decided by the first failing check of its
      chain: the asynchronous chain is the synchronous one (against the
      asynchronous interface) plus the return-type check. */
  lemma ValidationIsFirstFailingCheck(ts: TypeSystem, kind: Kind, h: Obj, dispatchAs: Type, hookOff: set<Obj>)
    requires ts.Acyclic()
    ensures Validate(ts, kind, h, dispatchAs, hookOff) ==
      match FirstFailure(Checks(ts, kind, h, dispatchAs))
      case None => Invoked(StateChangeIfComponent(ts, h, hookOff))
      case Some(reason) => Rejected(reason)
  {
    var c := Checks(ts, kind, h, dispatchAs);
    var expected := ExpectedHandlerType(kind, dispatchAs);
    var rest := FirstFailure(c[3..]);
    if kind == Async {
      assert c[3..] == [(ts.invokeMethod(expected) != Some(TaskType), NotAsync)];
      FirstFailureOfOne((ts.invokeMethod(expected) != Some(TaskType), NotAsync));
      assert rest == if ts.invokeMethod(expected) != Some(TaskType) then Some(NotAsync) else None;
    } else {
      assert c[3..] == [];
    }
    assert c[2..][1..] == c[3..];
    assert FirstFailure(c[2..]) == if MethodNotFoundOn(ts, expected) then Some(MethodNotFound) else rest;
    assert c[1..][1..] == c[2..];
    assert FirstFailure(c[1..]) == if CannotBeAssignedTo(ts, h, expected) then Some(CannotBeAssigned) else FirstFailure(c[2..]);
    assert FirstFailure(c) == if InstantiationFailedFor(h) then Some(InstantiationFailed) else FirstFailure(c[1..]);
  }

  /** The steps of one kind of handler in a branch, one per handler, in list order. */
  function Steps(ts: TypeSystem, kind: Kind, hs: seq<Obj>, dispatchAs: Type, hookOff: set<Obj>): seq<Step>
    requires ts.Acyclic()
  {
    seq(|hs|, i requires 0 <= i < |hs| => Step(kind, dispatchAs, hs[i], Validate(ts, kind, hs[i], dispatchAs, hookOff)))
  }

  /** Processing one more handler appends its step. */
  lemma StepsExtend(ts: TypeSystem, kind: Kind, hs: seq<Obj>, k: nat, dispatchAs: Type, hookOff: set<Obj>)
    requires ts.Acyclic() && k < |hs|
    ensures Steps(ts, kind, hs[..k + 1], dispatchAs, hookOff) ==
      Steps(ts, kind, hs[..k], dispatchAs, hookOff) + [Step(kind, dispatchAs, hs[k], Validate(ts, kind, hs[k], dispatchAs, hookOff))]
  {
    assert hs[..k + 1][..k] == hs[..k];
  }

  /** `DispatchAndWait(notification, asType)`: the synchronous handlers of the
      snapshot in order, then the asynchronous ones. */
  function BranchFor(ts: TypeSystem, reg: Registry, getService: ServiceProvider, asType: Type, hookOff: set<Obj>): Branch
    requires ts.Acyclic()
  {
    var typed := Resolve(reg, asType, getService);
    Branch(asType, Steps(ts, Sync, typed.handlers, asType, hookOff) + Steps(ts, Async, typed.asyncHandlers, asType, hookOff))
  }

  /** One branch per type of `types`, in order. */
  function BranchesFor(ts: TypeSystem, reg: Registry, getService: ServiceProvider, types: seq<Type>, hookOff: set<Obj>): seq<Branch>
    requires ts.Acyclic()
  {
    seq(|types|, i requires 0 <= i < |types| => BranchFor(ts, reg, getService, types[i], hookOff))
  }

  /** Dispatching as one more type appends its branch. */
  lemma BranchesForExtend(ts: TypeSystem, reg: Registry, getService: ServiceProvider, types: seq<Type>, k: nat, hookOff: set<Obj>)
    requires ts.Acyclic() && k < |types|
    ensures BranchesFor(ts, reg, getService, types[..k + 1], hookOff) ==
      BranchesFor(ts, reg, getService, types[..k], hookOff) + [BranchFor(ts, reg, getService, types[k], hookOff)]
  {
    assert types[..k + 1][..k] == types[..k];
  }

  /** `DispatchAndWait(notification)`: one branch per dispatch type of the notification. */
  function Trace(ts: TypeSystem, reg: Registry, getService: ServiceProvider, notification: Obj, hookOff: set<Obj>): seq<Branch>
    requires ts.Acyclic()
  {
    BranchesFor(ts, reg, getService, DispatchTypes(ts, TypeOf(notification)), hookOff)
  }

  /** Within a branch every handler gets exactly one step, decided by its own
      checks alone: synchronous steps first, in list order, then asynchronous ones. */
  lemma BranchStepsInOrder(ts: TypeSystem, syncHs: seq<Obj>, asyncHs: seq<Obj>, asType: Type, hookOff: set<Obj>)
    requires ts.Acyclic()
    ensures var steps := Steps(ts, Sync, syncHs, asType, hookOff) + Steps(ts, Async, asyncHs, asType, hookOff);
      && |steps| == |syncHs| + |asyncHs|
      && (forall i :: 0 <= i < |syncHs| ==>
            steps[i] == Step(Sync, asType, syncHs[i], Validate(ts, Sync, syncHs[i], asType, hookOff)))
      && (forall j :: 0 <= j < |asyncHs| ==>
            steps[|syncHs| + j] == Step(Async, asType, asyncHs[j], Validate(ts, Async, asyncHs[j], asType, hookOff)))
      && (forall i, j :: 0 <= i < j < |steps| && steps[j].kind == Sync ==> steps[i].kind == Sync)
  {
    var syncSteps := Steps(ts, Sync, syncHs, asType, hookOff);
    var asyncSteps := Steps(ts, Async, asyncHs, asType, hookOff);
    var steps := syncSteps + asyncSteps;
    var n := |syncHs|;
    forall i | 0 <= i < n
      ensures steps[i] == Step(Sync, asType, syncHs[i], Validate(ts, Sync, syncHs[i], asType, hookOff))
    {
      assert steps[i] == syncSteps[i];
    }
    forall j | 0 <= j < |asyncHs|
      ensures steps[n + j] == Step(Async, asType, asyncHs[j], Validate(ts, Async, asyncHs[j], asType, hookOff))
    {
      assert steps[n + j] == asyncSteps[j];
    }
    forall i, j | 0 <= i < j < |steps|
      ensures steps[j].kind == Sync ==> steps[i].kind == Sync
    {
      if j < n {
        assert steps[i] == syncSteps[i];
      } else {
        assert steps[j] == asyncSteps[j - n];
      }
    }
  }

  /** The state-change hook fires only on a step whose handler passed its checks
      and is a component that has not switched the hook off. */
  lemma HookOnlyAfterInvocation(ts: TypeSystem, reg: Registry, getService: ServiceProvider, notification: Obj, hookOff: set<Obj>)
    requires ts.Acyclic()
    ensures var trace := Trace(ts, reg, getService, notification, hookOff);
      forall i, j :: 0 <= i < |trace| && 0 <= j < |trace[i].steps| ==>
        var s := trace[i].steps[j];
        (s.outcome == Invoked(true) <==>
          && Validate(ts, s.kind, s.handler, trace[i].dispatchAs, hookOff).Invoked?
          && StateChangeIfComponent(ts, s.handler, hookOff))
  {
    var trace := Trace(ts, reg, getService, notification, hookOff);
    var types := DispatchTypes(ts, TypeOf(notification));
    forall i, j | 0 <= i < |trace| && 0 <= j < |trace[i].steps|
      ensures var s := trace[i].steps[j];
        (s.outcome == Invoked(true) <==>
          && Validate(ts, s.kind, s.handler, trace[i].dispatchAs, hookOff).Invoked?
          && StateChangeIfComponent(ts, s.handler, hookOff))
    {
      var typed := Resolve(reg, types[i], getService);
      assert trace[i] == BranchFor(ts, reg, getService, types[i], hookOff);
      var syncSteps := Steps(ts, Sync, typed.handlers, types[i], hookOff);
      var asyncSteps := Steps(ts, Async, typed.asyncHandlers, types[i], hookOff);
      assert trace[i].steps == syncSteps + asyncSteps;
      if j < |syncSteps| {
        assert trace[i].steps[j] == syncSteps[j];
      } else {
        assert trace[i].steps[j] == asyncSteps[j - |syncSteps|];
      }
    }
  }

  /** Each type of the dispatch type list is dispatched exactly once, in order. */
  lemma TraceDispatchesEachTypeOnce(ts: TypeSystem, reg: Registry, getService: ServiceProvider, notification: Obj, hookOff: set<Obj>)
    requires ts.Acyclic() && ts.ClassHierarchy() && !ts.isInterface(TypeOf(notification))
    ensures var trace := Trace(ts, reg, getService, notification, hookOff);
      var types := DispatchTypes(ts, TypeOf(notification));
      && |trace| == |types|
      && (forall i :: 0 <= i < |trace| ==> trace[i].dispatchAs == types[i])
      && (forall i, j :: 0 <= i < j < |trace| ==> trace[i].dispatchAs != trace[j].dispatchAs)
  {
    DispatchTypesDistinct(ts, TypeOf(notification));
  }

  /** A registered instance whose class implements `INotificationHandler<N>` is
      invoked when a notification whose dispatch types include `N` is dispatched. */
  lemma RegisteredInstanceIsInvoked(ts: TypeSystem, reg: Registry, getService: ServiceProvider, h: Obj, n: Type, notification: Obj, hookOff: set<Obj>)
    requires ts.Acyclic() && ts.InterfacesAssignable() && ts.StandardHandlerShapes()
    requires h.Object? && Distinct(ts.interfaces(TypeOf(h)))
    requires n in NotificationTypesHandledBy(ts, TypeOf(h))
    requires n in DispatchTypes(ts, TypeOf(notification))
    ensures var trace := Trace(ts, WithInstance(reg, ts, h), getService, notification, hookOff);
      exists i, j :: 0 <= i < |trace| && 0 <= j < |trace[i].steps| &&
        trace[i].steps[j] == Step(Sync, n, h, Invoked(StateChangeIfComponent(ts, h, hookOff)))
  {
    var after := WithInstance(reg, ts, h);
    var trace := Trace(ts, after, getService, notification, hookOff);
    var types := DispatchTypes(ts, TypeOf(notification));
    var i :| 0 <= i < |types| && types[i] == n;
    var j := RegisteredInstancePosition(reg, ts, h, n, getService);
    assert Generic(SyncHandlerDef, n) in ts.interfaces(TypeOf(h));
    assert trace[i] == BranchFor(ts, after, getService, n, hookOff);
    SyncStepOfBranch(ts, after, getService, n, hookOff, j);
  }

  /** Where a freshly registered instance sits among the synchronous handlers of `n`. */
  lemma RegisteredInstancePosition(reg: Registry, ts: TypeSystem, h: Obj, n: Type, getService: ServiceProvider) returns (j: nat)
    requires Distinct(ts.interfaces(TypeOf(h)))
    requires n in NotificationTypesHandledBy(ts, TypeOf(h))
    ensures j < |Resolve(WithInstance(reg, ts, h), n, getService).handlers|
    ensures Resolve(WithInstance(reg, ts, h), n, getService).handlers[j] == h
  {
    ResolveAfterRegister(reg, ts, h, n, getService);
    j := |Lookup(reg.instances, n)|;
  }

  /** The `j`-th step of a branch belongs to the `j`-th synchronous handler of the snapshot. */
  lemma SyncStepOfBranch(ts: TypeSystem, reg: Registry, getService: ServiceProvider, n: Type, hookOff: set<Obj>, j: nat)
    requires ts.Acyclic()
    requires j < |Resolve(reg, n, getService).handlers|
    ensures var h := Resolve(reg, n, getService).handlers[j];
      BranchFor(ts, reg, getService, n, hookOff).steps[j] == Step(Sync, n, h, DispatchIfHandler(ts, h, n, hookOff))
  {
    var typed := Resolve(reg, n, getService);
    BranchStepsInOrder(ts, typed.handlers, typed.asyncHandlers, n, hookOff);
  }

  /** A registered instance whose class implements `IAsyncNotificationHandler<N>`
      is invoked asynchronously when a notification whose dispatch types include
      `N` is dispatched. */
  lemma RegisteredAsyncInstanceIsInvoked(ts: TypeSystem, reg: Registry, getService: ServiceProvider, h: Obj, n: Type, notification: Obj, hookOff: set<Obj>)
    requires ts.Acyclic() && ts.InterfacesAssignable() && ts.StandardHandlerShapes()
    requires h.Object? && Distinct(ts.interfaces(TypeOf(h)))
    requires n in AsyncNotificationTypesHandledBy(ts, TypeOf(h))
    requires n in DispatchTypes(ts, TypeOf(notification))
    ensures var trace := Trace(ts, WithInstance(reg, ts, h), getService, notification, hookOff);
      exists i, j :: 0 <= i < |trace| && 0 <= j < |trace[i].steps| &&
        trace[i].steps[j] == Step(Async, n, h, Invoked(StateChangeIfComponent(ts, h, hookOff)))
  {
    var after := WithInstance(reg, ts, h);
    var trace := Trace(ts, after, getService, notification, hookOff);
    var types := DispatchTypes(ts, TypeOf(notification));
    var i :| 0 <= i < |types| && types[i] == n;
    var j := RegisteredAsyncInstancePosition(reg, ts, h, n, getService);
    assert Generic(AsyncHandlerDef, n) in ts.interfaces(TypeOf(h));
    assert trace[i] == BranchFor(ts, after, getService, n, hookOff);
    AsyncStepOfBranch(ts, after, getService, n, hookOff, j);
  }

  /** Where a freshly registered instance sits among the asynchronous handlers of `n`. */
  lemma RegisteredAsyncInstancePosition(reg: Registry, ts: TypeSystem, h: Obj, n: Type, getService: ServiceProvider) returns (j: nat)
    requires Distinct(ts.interfaces(TypeOf(h)))
    requires n in AsyncNotificationTypesHandledBy(ts, TypeOf(h))
    ensures j < |Resolve(WithInstance(reg, ts, h), n, getService).asyncHandlers|
    ensures Resolve(WithInstance(reg, ts, h), n, getService).asyncHandlers[j] == h
  {
    ResolveAfterRegister(reg, ts, h, n, getService);
    j := |Lookup(reg.asyncInstances, n)|;
  }

  /** The step after all synchronous ones, plus `j`, belongs to the `j`-th
      asynchronous handler of the snapshot. */
  lemma AsyncStepOfBranch(ts: TypeSystem, reg: Registry, getService: ServiceProvider, n: Type, hookOff: set<Obj>, j: nat)
    requires ts.Acyclic()
    requires j < |Resolve(reg, n, getService).asyncHandlers|
    ensures var typed := Resolve(reg, n, getService);
      var h := typed.asyncHandlers[j];
      && |typed.handlers| + j < |BranchFor(ts, reg, getService, n, hookOff).steps|
      && BranchFor(ts, reg, getService, n, hookOff).steps[|typed.handlers| + j] == Step(Async, n, h, DispatchIfAsyncHandler(ts, h, n, hookOff))
  {
    var typed := Resolve(reg, n, getService);
    BranchStepsInOrder(ts, typed.handlers, typed.asyncHandlers, n, hookOff);
  }

  /** Dispatching as a list of types in two parts is dispatching as each part in turn. */
  lemma BranchesForConcat(ts: TypeSystem, reg: Registry, getService: ServiceProvider, xs: seq<Type>, ys: seq<Type>, hookOff: set<Obj>)
    requires ts.Acyclic()
    ensures BranchesFor(ts, reg, getService, xs + ys, hookOff) ==
            BranchesFor(ts, reg, getService, xs, hookOff) + BranchesFor(ts, reg, getService, ys, hookOff)
  {
    var whole := BranchesFor(ts, reg, getService, xs + ys, hookOff);
    var parts := BranchesFor(ts, reg, getService, xs, hookOff) + BranchesFor(ts, reg, getService, ys, hookOff);
    forall i | 0 <= i < |whole|
      ensures whole[i] == parts[i]
    {
      if i < |xs| {
        assert (xs + ys)[i] == xs[i];
      } else {
        assert (xs + ys)[i] == ys[i - |xs|];
      }
    }
  }

  /** The looked-up handlers of one kind. */
  function HandlersOfKind(typed: HandlersForDispatch, kind: Kind): seq<Obj> {
    match kind
    case Sync => typed.handlers
    case Async => typed.asyncHandlers
  }

  /** How many steps of `steps` are of `kind` and for handler `h`. */
  function StepCount(steps: seq<Step>, kind: Kind, h: Obj): nat {
    if steps == [] then 0
    else
      var last := steps[|steps| - 1];
      StepCount(steps[..|steps| - 1], kind, h) + (if last.kind == kind && last.handler == h then 1 else 0)
  }

  lemma {:induction false} StepCountConcat(a: seq<Step>, b: seq<Step>, kind: Kind, h: Obj)
    ensures StepCount(a + b, kind, h) == StepCount(a, kind, h) + StepCount(b, kind, h)
  {
    if b == [] {
      assert a + b == a;
    } else {
      assert (a + b)[..|a + b| - 1] == a + b[..|b| - 1];
      StepCountConcat(a, b[..|b| - 1], kind, h);
    }
  }

  /** Dispatching to a handler list of kind `listKind` gives `h` one step of
      that kind per occurrence in the list, and no step of the other kind. */
  lemma {:induction false} StepCountOfSteps(ts: TypeSystem, listKind: Kind, hs: seq<Obj>, dispatchAs: Type, hookOff: set<Obj>, kind: Kind, h: Obj)
    requires ts.Acyclic()
    ensures StepCount(Steps(ts, listKind, hs, dispatchAs, hookOff), kind, h) == if listKind == kind then multiset(hs)[h] else 0
  {
    if hs == [] {
      assert Steps(ts, listKind, hs, dispatchAs, hookOff) == [];
    } else {
      var k := |hs| - 1;
      StepsExtend(ts, listKind, hs, k, dispatchAs, hookOff);
      assert hs[..k + 1] == hs;
      StepCountOfSteps(ts, listKind, hs[..k], dispatchAs, hookOff, kind, h);
      var prev := Steps(ts, listKind, hs[..k], dispatchAs, hookOff);
      var step := Step(listKind, dispatchAs, hs[k], Validate(ts, listKind, hs[k], dispatchAs, hookOff));
      assert (prev + [step])[..|prev + [step]| - 1] == prev;
      assert hs == hs[..k] + [hs[k]];
    }
  }

  /** How many steps of `kind` for `h` the branches dispatched as `n` hold. */
  function StepsAs(bs: seq<Branch>, kind: Kind, n: Type, h: Obj): nat {
    if bs == [] then 0
    else
      var last := bs[|bs| - 1];
      StepsAs(bs[..|bs| - 1], kind, n, h) + (if last.dispatchAs == n then StepCount(last.steps, kind, h) else 0)
  }

  /** The branch dispatched as `n` gives `h` one step of `kind` per occurrence
      in the snapshot's list of that kind for `n`. */
  lemma StepCountOfBranch(ts: TypeSystem, reg: Registry, getService: ServiceProvider, n: Type, hookOff: set<Obj>, kind: Kind, h: Obj)
    requires ts.Acyclic()
    ensures StepCount(BranchFor(ts, reg, getService, n, hookOff).steps, kind, h) ==
      multiset(HandlersOfKind(Resolve(reg, n, getService), kind))[h]
  {
    var typed := Resolve(reg, n, getService);
    StepCountConcat(Steps(ts, Sync, typed.handlers, n, hookOff), Steps(ts, Async, typed.asyncHandlers, n, hookOff), kind, h);
    StepCountOfSteps(ts, Sync, typed.handlers, n, hookOff, kind, h);
    StepCountOfSteps(ts, Async, typed.asyncHandlers, n, hookOff, kind, h);
  }

  lemma StepsAsExtend(bs: seq<Branch>, b: Branch, kind: Kind, n: Type, h: Obj)
    ensures StepsAs(bs + [b], kind, n, h) == StepsAs(bs, kind, n, h) + if b.dispatchAs == n then StepCount(b.steps, kind, h) else 0
  {
    assert (bs + [b])[..|bs + [b]| - 1] == bs;
  }

  lemma {:induction false} StepsAsOfBranches(ts: TypeSystem, reg: Registry, getService: ServiceProvider, xs: seq<Type>, hookOff: set<Obj>, kind: Kind, n: Type, h: Obj)
    requires ts.Acyclic() && Distinct(xs)
    ensures StepsAs(BranchesFor(ts, reg, getService, xs, hookOff), kind, n, h) ==
      if n in xs then multiset(HandlersOfKind(Resolve(reg, n, getService), kind))[h] else 0
  {
    if xs == [] {
      assert BranchesFor(ts, reg, getService, xs, hookOff) == [];
    } else {
      var k := |xs| - 1;
      var init := xs[..k];
      DistinctSplit(xs);
      BranchesForExtend(ts, reg, getService, xs, k, hookOff);
      assert xs[..k + 1] == xs;
      StepsAsOfBranches(ts, reg, getService, init, hookOff, kind, n, h);
      var b := BranchFor(ts, reg, getService, xs[k], hookOff);
      StepsAsExtend(BranchesFor(ts, reg, getService, init, hookOff), b, kind, n, h);
      assert xs == init + [xs[k]];
      if xs[k] == n {
        StepCountOfBranch(ts, reg, getService, n, hookOff, kind, h);
      }
    }
  }

  /** Dispatching a notification gives a handler, as type `n`, one step of
      `kind` per occurrence in the snapshot's list of that kind for `n` when `n`
      is one of the notification's dispatch types, and none otherwise. */
  lemma TraceStepsPerType(ts: TypeSystem, reg: Registry, getService: ServiceProvider, notification: Obj, hookOff: set<Obj>, kind: Kind, n: Type, h: Obj)
    requires ts.Acyclic() && ts.ClassHierarchy() && !ts.isInterface(TypeOf(notification))
    ensures StepsAs(Trace(ts, reg, getService, notification, hookOff), kind, n, h) ==
      if n in DispatchTypes(ts, TypeOf(notification)) then multiset(HandlersOfKind(Resolve(reg, n, getService), kind))[h] else 0
  {
    DispatchTypesDistinct(ts, TypeOf(notification));
    StepsAsOfBranches(ts, reg, getService, DispatchTypes(ts, TypeOf(notification)), hookOff, kind, n, h);
  }

  /** An instance registered once, and not otherwise in the synchronous lists
      for `n`, is dispatched to synchronously exactly once as `n`. */
  lemma RegisteredInstanceDispatchedOnce(ts: TypeSystem, reg: Registry, getService: ServiceProvider, h: Obj, n: Type, notification: Obj, hookOff: set<Obj>)
    requires ts.Acyclic() && ts.ClassHierarchy() && !ts.isInterface(TypeOf(notification))
    requires Distinct(ts.interfaces(TypeOf(h)))
    requires n in NotificationTypesHandledBy(ts, TypeOf(h)) && n in DispatchTypes(ts, TypeOf(notification))
    requires h !in Lookup(reg.instances, n) && h !in InstantiateAll(Lookup(reg.factories, n), getService)
    ensures StepsAs(Trace(ts, WithInstance(reg, ts, h), getService, notification, hookOff), Sync, n, h) == 1
  {
    TraceStepsPerType(ts, WithInstance(reg, ts, h), getService, notification, hookOff, Sync, n, h);
    ResolveCountAfterRegister(reg, ts, h, n, getService);
  }

  /** An instance registered once, and not otherwise in the asynchronous lists
      for `n`, is dispatched to asynchronously exactly once as `n`. */
  lemma RegisteredAsyncInstanceDispatchedOnce(ts: TypeSystem, reg: Registry, getService: ServiceProvider, h: Obj, n: Type, notification: Obj, hookOff: set<Obj>)
    requires ts.Acyclic() && ts.ClassHierarchy() && !ts.isInterface(TypeOf(notification))
    requires Distinct(ts.interfaces(TypeOf(h)))
    requires n in AsyncNotificationTypesHandledBy(ts, TypeOf(h)) && n in DispatchTypes(ts, TypeOf(notification))
    requires h !in Lookup(reg.asyncInstances, n) && h !in InstantiateAll(Lookup(reg.asyncFactories, n), getService)
    ensures StepsAs(Trace(ts, WithInstance(reg, ts, h), getService, notification, hookOff), Async, n, h) == 1
  {
    TraceStepsPerType(ts, WithInstance(reg, ts, h), getService, notification, hookOff, Async, n, h);
    ResolveAsyncCountAfterRegister(reg, ts, h, n, getService);
  }

  /** `Dispatcher`: the service-provider callback and the handler tables. */
  class Dispatcher {
    const getService: ServiceProvider
    const handlers: Handlers

    predicate Valid()
      reads this, handlers
    {
      handlers.Valid()
    }

    /** The registry as it stands. */
    function Registrations(): Registry
      reads this, handlers, handlers.instanceHandlers, handlers.asyncInstanceHandlers,
        handlers.serviceHandlers, handlers.asyncServiceHandlers
    {
      handlers.Model()
    }

    constructor (getService: ServiceProvider)
      ensures Valid() && Registrations() == EmptyRegistry && this.getService == getService
      ensures fresh(handlers) && fresh(handlers.instanceHandlers) && fresh(handlers.asyncInstanceHandlers)
      ensures fresh(handlers.serviceHandlers) && fresh(handlers.asyncServiceHandlers)
    {
      this.getService := getService;
      handlers := new Handlers();
    }

    /** `Register(Type)`: the handler type is resolved through the service provider on every dispatch. */
    method RegisterType(ts: TypeSystem, handlerType: Type)
      requires Valid()
      modifies handlers.serviceHandlers, handlers.asyncServiceHandlers
      ensures Registrations() == WithFactory(old(Registrations()), ts, handlerType, ResolveService(handlerType))
    {
      handlers.RegisterFactory(ts, handlerType, ResolveService(handlerType));
    }

    method Register(ts: TypeSystem, h: Obj)
      requires Valid()
      modifies handlers.instanceHandlers, handlers.asyncInstanceHandlers
      ensures Registrations() == WithInstance(old(Registrations()), ts, h)
    {
      handlers.Register(ts, h);
    }

    /** `Unregister(object)` as written: the registry is left as it was. */
    method Unregister(ts: TypeSystem, h: Obj)
      requires Valid()
      modifies handlers.instanceHandlers, handlers.asyncInstanceHandlers
      ensures Registrations() == UnregisterAsWritten(old(Registrations()), ts, h)
      ensures Registrations() == old(Registrations())
    {
      handlers.Unregister(ts, h);
    }

    /** `Unregister(object)` with the table update that `InstanceHandlers.Remove` evidently intends. */
    method UnregisterIntended(ts: TypeSystem, h: Obj)
      requires Valid()
      modifies handlers.instanceHandlers, handlers.asyncInstanceHandlers
      ensures Registrations() == WithoutInstance(old(Registrations()), ts, h)
    {
      handlers.UnregisterIntended(ts, h);
    }

    /** `DispatchAndWait(notification, asType)`: each synchronous handler of the
        snapshot in turn, then each asynchronous one. */
    method DispatchAs(ts: TypeSystem, notification: Obj, asType: Type, hookOff: set<Obj>) returns (b: Branch)
      requires ts.Acyclic()
      ensures b == BranchFor(ts, Registrations(), getService, asType, hookOff)
    {
      var typed := handlers.GetHandlers(asType, getService);
      var syncSteps: seq<Step> := [];
      for k := 0 to |typed.handlers|
        invariant syncSteps == Steps(ts, Sync, typed.handlers[..k], asType, hookOff)
      {
        StepsExtend(ts, Sync, typed.handlers, k, asType, hookOff);
        var h := typed.handlers[k];
        assert Validate(ts, Sync, h, asType, hookOff) == DispatchIfHandler(ts, h, asType, hookOff);
        syncSteps := syncSteps + [Step(Sync, asType, h, DispatchIfHandler(ts, h, asType, hookOff))];
      }
      assert typed.handlers[..|typed.handlers|] == typed.handlers;
      var asyncSteps: seq<Step> := [];
      for k := 0 to |typed.asyncHandlers|
        invariant asyncSteps == Steps(ts, Async, typed.asyncHandlers[..k], asType, hookOff)
      {
        StepsExtend(ts, Async, typed.asyncHandlers, k, asType, hookOff);
        var h := typed.asyncHandlers[k];
        assert Validate(ts, Async, h, asType, hookOff) == DispatchIfAsyncHandler(ts, h, asType, hookOff);
        asyncSteps := asyncSteps + [Step(Async, asType, h, DispatchIfAsyncHandler(ts, h, asType, hookOff))];
      }
      assert typed.asyncHandlers[..|typed.asyncHandlers|] == typed.asyncHandlers;
      assert typed == Resolve(Registrations(), asType, getService);
      b := Branch(asType, syncSteps + asyncSteps);
    }

    /** `DispatchUpBaseTypes`: the runtime type, then each base type until there is none. */
    method DispatchUpBaseTypes(ts: TypeSystem, notification: Obj, hookOff: set<Obj>) returns (branches: seq<Branch>)
      requires ts.Acyclic()
      ensures branches == BranchesFor(ts, Registrations(), getService, BaseChain(ts, TypeOf(notification)), hookOff)
    {
      ghost var chain := BaseChain(ts, TypeOf(notification));
      BaseChainIsTheWalk(ts, TypeOf(notification), chain);
      assert IsBaseChain(ts, TypeOf(notification), chain);
      branches := [];
      var asType: Option<Type> := Some(TypeOf(notification));
      ghost var k := 0;
      while asType.Some?
        invariant 0 <= k <= |chain|
        invariant asType.Some? <==> k < |chain|
        invariant asType.Some? ==> asType.value == chain[k]
        invariant branches == BranchesFor(ts, Registrations(), getService, chain[..k], hookOff)
        decreases |chain| - k
      {
        var b := DispatchAs(ts, notification, asType.value, hookOff);
        BranchesForExtend(ts, Registrations(), getService, chain, k, hookOff);
        if k + 1 < |chain| {
          assert ts.baseOf(chain[k]) == Some(chain[k + 1]);
        } else {
          assert ts.baseOf(chain[k]) == None;
        }
        branches := branches + [b];
        asType := ts.baseOf(asType.value);
        k := k + 1;
      }
      assert chain[..k] == chain;
    }

    /** `DispatchAcrossInterfaces`: each interface of the runtime type, in order. */
    method DispatchAcrossInterfaces(ts: TypeSystem, notification: Obj, hookOff: set<Obj>) returns (branches: seq<Branch>)
      requires ts.Acyclic()
      ensures branches == BranchesFor(ts, Registrations(), getService, ts.interfaces(TypeOf(notification)), hookOff)
    {
      var interfaces := ts.interfaces(TypeOf(notification));
      branches := [];
      for k := 0 to |interfaces|
        invariant branches == BranchesFor(ts, Registrations(), getService, interfaces[..k], hookOff)
      {
        BranchesForExtend(ts, Registrations(), getService, interfaces, k, hookOff);
        var b := DispatchAs(ts, notification, interfaces[k], hookOff);
        branches := branches + [b];
      }
      assert interfaces[..|interfaces|] == interfaces;
    }

    /** `DispatchAndWait(notification)`: up the base types, then across the interfaces. */
    method DispatchAndWait(ts: TypeSystem, notification: Obj, hookOff: set<Obj>) returns (trace: seq<Branch>)
      requires ts.Acyclic()
      ensures trace == Trace(ts, Registrations(), getService, notification, hookOff)
    {
      var up := DispatchUpBaseTypes(ts, notification, hookOff);
      var across := DispatchAcrossInterfaces(ts, notification, hookOff);
      trace := up + across;
      BranchesForConcat(ts, Registrations(), getService, BaseChain(ts, TypeOf(notification)), ts.interfaces(TypeOf(notification)), hookOff);
    }

    /** `Dispatch`: starts the same dispatch and returns without waiting for it.
        The dispatch it starts is returned here; the caller of `Dispatch` drops it. */
    method Dispatch(ts: TypeSystem, notification: Obj, hookOff: set<Obj>) returns (started: seq<Branch>)
      requires ts.Acyclic()
      ensures started == Trace(ts, Registrations(), getService, notification, hookOff)
    {
      started := DispatchAndWait(ts, notification, hookOff);
    }
  }
}
