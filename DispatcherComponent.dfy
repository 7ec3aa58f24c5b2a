/** The UI component base class: a component whose class declares handler
    interfaces registers itself with the dispatcher when it is initialized and
    asks to be unregistered when it is disposed; the dispatcher fires its
    state-change hook after handling unless the component switched it off. */
module Components {
  import opened TypeModel
  import opened HandlerRegistry
  import opened Dispatching

  /** A type is a handler type when its class declares at least one synchronous
      or asynchronous notification handler interface. */
  function IsHandlerType(ts: TypeSystem, t: Type): bool {
    |NotificationTypesHandledBy(ts, t)| > 0 || |AsyncNotificationTypesHandledBy(ts, t)| > 0
  }

  lemma IsHandlerTypeIff(ts: TypeSystem, t: Type)
    ensures IsHandlerType(ts, t) <==>
      exists i :: 0 <= i < |ts.interfaces(t)| && ts.interfaces(t)[i].Generic? &&
        (ts.interfaces(t)[i].def == SyncHandlerDef || ts.interfaces(t)[i].def == AsyncHandlerDef)
  {
    var ifs := ts.interfaces(t);
    var sync := NotificationTypesHandledBy(ts, t);
    var async := AsyncNotificationTypesHandledBy(ts, t);
    if |sync| > 0 {
      assert sync[0] in sync;
      assert Generic(SyncHandlerDef, sync[0]) in ifs;
    } else if |async| > 0 {
      assert async[0] in async;
      assert Generic(AsyncHandlerDef, async[0]) in ifs;
    }
    if i :| 0 <= i < |ifs| && ifs[i].Generic? && (ifs[i].def == SyncHandlerDef || ifs[i].def == AsyncHandlerDef) {
      if ifs[i].def == SyncHandlerDef {
        assert Generic(SyncHandlerDef, ifs[i].arg) == ifs[i];
        assert ifs[i].arg in sync;
      } else {
        assert Generic(AsyncHandlerDef, ifs[i].arg) == ifs[i];
        assert ifs[i].arg in async;
      }
    }
  }

  /** `DispatcherComponent`. `asHandler` is the component as the dispatcher sees
      it: an object whose class derives from the component base class. */
  class DispatcherComponent {
    const dispatcher: Dispatcher
    const types: TypeSystem
    const asHandler: Obj
    const isHandler: bool
    var stateChangeOnHandle: bool
    /** Whether the derived class's `OnInitializedAndRegistered` has run. */
    var initializedAndRegistered: bool

    ghost predicate Valid()
      reads this, dispatcher, dispatcher.handlers
    {
      && types.Acyclic()
      && asHandler.Object?
      && ComponentType in BaseChain(types, TypeOf(asHandler))
      && isHandler == IsHandlerType(types, TypeOf(asHandler))
      && dispatcher.Valid()
    }

    constructor (dispatcher: Dispatcher, types: TypeSystem, asHandler: Obj)
      requires types.Acyclic() && dispatcher.Valid()
      requires asHandler.Object? && ComponentType in BaseChain(types, TypeOf(asHandler))
      ensures Valid()
      ensures this.dispatcher == dispatcher && this.types == types && this.asHandler == asHandler
      ensures isHandler == IsHandlerType(types, TypeOf(asHandler))
      ensures stateChangeOnHandle && !initializedAndRegistered
    {
      this.dispatcher := dispatcher;
      this.types := types;
      this.asHandler := asHandler;
      isHandler := IsHandlerType(types, TypeOf(asHandler));
      stateChangeOnHandle := true;
      initializedAndRegistered := false;
    }

    /** `OnInitialized`: registers the component when it is a handler, then
        runs the derived class's initialization hook. */
    method OnInitialized()
      requires Valid()
      modifies this, dispatcher.handlers.instanceHandlers, dispatcher.handlers.asyncInstanceHandlers
      ensures Valid()
      ensures dispatcher.Registrations() ==
        if isHandler then WithInstance(old(dispatcher.Registrations()), types, asHandler)
        else old(dispatcher.Registrations())
      ensures initializedAndRegistered && stateChangeOnHandle == old(stateChangeOnHandle)
    {
      if isHandler {
        dispatcher.Register(types, asHandler);
      }
      initializedAndRegistered := true;
    }

    /** `Dispose`: asks the dispatcher to unregister the component when it is a
        handler; as written, the dispatcher's tables are left as they were. */
    method Dispose()
      requires Valid()
      modifies dispatcher.handlers.instanceHandlers, dispatcher.handlers.asyncInstanceHandlers
      ensures dispatcher.Registrations() == old(dispatcher.Registrations())
    {
      if isHandler {
        dispatcher.Unregister(types, asHandler);
      }
    }

    /** `Dispose` with the intended unregistration. */
    method DisposeIntended()
      requires Valid()
      modifies dispatcher.handlers.instanceHandlers, dispatcher.handlers.asyncInstanceHandlers
      ensures dispatcher.Registrations() ==
        if isHandler then WithoutInstance(old(dispatcher.Registrations()), types, asHandler)
        else old(dispatcher.Registrations())
    {
      if isHandler {
        dispatcher.UnregisterIntended(types, asHandler);
      }
    }

    /** The protected setter of `StateChangeOnHandle`. */
    method SetStateChangeOnHandle(on: bool)
      modifies this
      ensures stateChangeOnHandle == on && initializedAndRegistered == old(initializedAndRegistered)
    {
      stateChangeOnHandle := on;
    }
  }

  /** The components among `cs` whose hook is switched off, as handler objects. */
  function HookOff(cs: set<DispatcherComponent>): set<Obj>
    reads cs
  {
    set c | c in cs && !c.stateChangeOnHandle :: c.asHandler
  }

  /** A component's state-change hook fires after it handles a notification
      exactly when its `StateChangeOnHandle` is on. */
  lemma HookFollowsStateChangeOnHandle(c: DispatcherComponent, cs: set<DispatcherComponent>)
    requires c in cs && c.types.Acyclic()
    requires ComponentType in BaseChain(c.types, TypeOf(c.asHandler))
    requires forall d :: d in cs && d.asHandler == c.asHandler ==> d == c
    ensures StateChangeIfComponent(c.types, c.asHandler, HookOff(cs)) <==> c.stateChangeOnHandle
  {
    if c.asHandler in HookOff(cs) {
      var d :| d in cs && !d.stateChangeOnHandle && d.asHandler == c.asHandler;
      assert d == c;
    }
  }

  /** As written, a handler component that has been initialized and then
      disposed is still dispatched to, for every synchronous and every
      asynchronous notification type its class declares: its registration
      outlives it. */
  method InitializeThenDispose(c: DispatcherComponent)
    requires c.Valid()
    modifies c, c.dispatcher.handlers.instanceHandlers, c.dispatcher.handlers.asyncInstanceHandlers
    ensures forall t :: var r := Resolve(c.dispatcher.Registrations(), t, c.dispatcher.getService);
      && (t in NotificationTypesHandledBy(c.types, TypeOf(c.asHandler)) ==> c.asHandler in r.handlers)
      && (t in AsyncNotificationTypesHandledBy(c.types, TypeOf(c.asHandler)) ==> c.asHandler in r.asyncHandlers)
  {
    c.OnInitialized();
    c.Dispose();
    var before := old(c.dispatcher.Registrations());
    if c.isHandler {
      UnregisterAsWrittenChangesNothing(WithInstance(before, c.types, c.asHandler), c.types, c.asHandler);
    } else {
      assert |NotificationTypesHandledBy(c.types, TypeOf(c.asHandler))| == 0;
      assert |AsyncNotificationTypesHandledBy(c.types, TypeOf(c.asHandler))| == 0;
    }
    forall t
      ensures var r := Resolve(c.dispatcher.Registrations(), t, c.dispatcher.getService);
        && (t in NotificationTypesHandledBy(c.types, TypeOf(c.asHandler)) ==> c.asHandler in r.handlers)
        && (t in AsyncNotificationTypesHandledBy(c.types, TypeOf(c.asHandler)) ==> c.asHandler in r.asyncHandlers)
    {
      UnregisteredInstanceStillResolved(before, c.types, c.asHandler, t, c.dispatcher.getService);
    }
  }

  /** With the intended unregistration, a component that is initialized and then
      disposed leaves every handler list as it found it, provided it was not
      registered already. */
  method InitializeThenDisposeIntended(c: DispatcherComponent)
    requires c.Valid() && Distinct(c.types.interfaces(TypeOf(c.asHandler)))
    requires forall t :: c.asHandler !in Lookup(c.dispatcher.Registrations().instances, t)
    requires forall t :: c.asHandler !in Lookup(c.dispatcher.Registrations().asyncInstances, t)
    modifies c, c.dispatcher.handlers.instanceHandlers, c.dispatcher.handlers.asyncInstanceHandlers
    ensures var before, after := old(c.dispatcher.Registrations()), c.dispatcher.Registrations();
      && (forall t :: Lookup(after.instances, t) == Lookup(before.instances, t))
      && (forall t :: Lookup(after.asyncInstances, t) == Lookup(before.asyncInstances, t))
      && after.factories == before.factories && after.asyncFactories == before.asyncFactories
    ensures c.initializedAndRegistered
  {
    c.OnInitialized();
    c.DisposeIntended();
    var before := old(c.dispatcher.Registrations());
    if c.isHandler {
      forall t
        ensures var after := WithoutInstance(WithInstance(before, c.types, c.asHandler), c.types, c.asHandler);
          && Lookup(after.instances, t) == Lookup(before.instances, t)
          && Lookup(after.asyncInstances, t) == Lookup(before.asyncInstances, t)
      {
        UnregisterUndoesRegister(before, c.types, c.asHandler, t);
      }
      UnregisterUndoesRegister(before, c.types, c.asHandler, ComponentType);
    }
  }
}
