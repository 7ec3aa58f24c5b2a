/** The handler registry: per notification type, an ordered list of handler
    instances and an ordered list of factories, each kept once for synchronous
    and once for asynchronous handlers. */
module HandlerRegistry {
  import opened TypeModel

  /** The factory `Dispatcher.Register(Type)` builds: ask the service provider for `serviceType`. */
  datatype RawFactory = ResolveService(serviceType: Type)

  /** The `safeFactory` closure `Handlers.Register(Type, factory)` stores:
      run `raw`, and stand in an `InstantiationFailure` for a null result. */
  datatype SafeFactory = SafeFactory(handlerType: Type, raw: RawFactory)

  /** The service provider: `None` is a null result. */
  type ServiceProvider = Type -> Option<Obj>

  /** `_instantiate(handlerType, factory)` */
  function Instantiate(f: SafeFactory, getService: ServiceProvider): (r: Obj)
    ensures getService(f.raw.serviceType).Some? ==> r == getService(f.raw.serviceType).value
    ensures getService(f.raw.serviceType).None? ==> r == InstantiationFailure(f.handlerType)
  {
    match getService(f.raw.serviceType)
    case Some(o) => o
    case None => InstantiationFailure(f.handlerType)
  }

  /** `factories.Select(f => f())`: one fresh result per factory, in order. */
  function InstantiateAll(fs: seq<SafeFactory>, getService: ServiceProvider): (r: seq<Obj>)
    ensures |r| == |fs|
    ensures forall i :: 0 <= i < |fs| ==> r[i] == Instantiate(fs[i], getService)
  {
    if fs == [] then []
    else InstantiateAll(fs[..|fs| - 1], getService) + [Instantiate(fs[|fs| - 1], getService)]
  }

  /** The list stored for `k`, or the empty list when `k` has no entry. */
  function Lookup<E>(m: map<Type, seq<E>>, k: Type): seq<E> {
    if k in m then m[k] else []
  }

  function Copies<E>(e: E, n: nat): (r: seq<E>)
    ensures |r| == n && forall i :: 0 <= i < n ==> r[i] == e
  {
    seq(n, _ => e)
  }

  lemma CopiesGrow<E>(e: E, n: nat)
    ensures Copies(e, n + 1) == Copies(e, n) + [e]
  {
  }

  /** The table after `Add(k, e)` for every `k` of `keys`, in order. */
  function AppendEach<E>(m: map<Type, seq<E>>, keys: seq<Type>, e: E): map<Type, seq<E>>
  {
    if keys == [] then m
    else
      var before := AppendEach(m, keys[..|keys| - 1], e);
      var k := keys[|keys| - 1];
      before[k := Lookup(before, k) + [e]]
  }

  /** Processing one more key appends `e` to that key's list. */
  lemma AppendEachStep<E>(m: map<Type, seq<E>>, keys: seq<Type>, i: nat, e: E)
    requires i < |keys|
    ensures var before := AppendEach(m, keys[..i], e);
      AppendEach(m, keys[..i + 1], e) == before[keys[i] := Lookup(before, keys[i]) + [e]]
  {
    assert keys[..i + 1][..i] == keys[..i];
  }

  /** Appending never suppresses duplicates: `e` is appended to `k`'s list once per occurrence of `k`. */
  lemma {:induction false} AppendEachLookup<E>(m: map<Type, seq<E>>, keys: seq<Type>, e: E, k: Type)
    ensures Lookup(AppendEach(m, keys, e), k) == Lookup(m, k) + Copies(e, multiset(keys)[k])
  {
    if keys != [] {
      var init, last := keys[..|keys| - 1], keys[|keys| - 1];
      AppendEachLookup(m, init, e, k);
      assert keys == init + [last];
      assert multiset(keys) == multiset(init) + multiset{last};
      if last == k {
        CopiesGrow(e, multiset(init)[k]);
      }
    }
  }

  /** Dropping the last key keeps the keys distinct, and the last key is not among the others. */
  lemma DistinctSplit(keys: seq<Type>)
    requires Distinct(keys) && keys != []
    ensures Distinct(keys[..|keys| - 1]) && keys[|keys| - 1] !in keys[..|keys| - 1]
  {
    var init := keys[..|keys| - 1];
    forall i | 0 <= i < |init| ensures init[i] != keys[|keys| - 1] {
      assert init[i] == keys[i];
    }
  }

  lemma {:induction false} DistinctOccurrences(keys: seq<Type>, k: Type)
    requires Distinct(keys)
    ensures multiset(keys)[k] == if k in keys then 1 else 0
  {
    if keys != [] {
      var init, last := keys[..|keys| - 1], keys[|keys| - 1];
      assert keys == init + [last];
      DistinctSplit(keys);
      DistinctOccurrences(init, k);
      assert multiset(keys) == multiset(init) + multiset{last};
    }
  }

  /** With distinct keys (as `GetInterfaces()` yields them), each listed key gets `e` appended exactly once. */
  lemma AppendEachDistinct<E>(m: map<Type, seq<E>>, keys: seq<Type>, e: E, k: Type)
    requires Distinct(keys)
    ensures Lookup(AppendEach(m, keys, e), k) == if k in keys then Lookup(m, k) + [e] else Lookup(m, k)
  {
    AppendEachLookup(m, keys, e, k);
    DistinctOccurrences(keys, k);
    assert Copies(e, 0) == [];
    assert Copies(e, 1) == [e];
  }

  /** `ImmutableList.Remove(e)`: drop the first element equal to `e`, if any. */
  function RemoveFirst<E(==)>(s: seq<E>, e: E): (r: seq<E>)
    ensures e !in s ==> r == s
  {
    if s == [] then []
    else if s[0] == e then s[1..] else [s[0]] + RemoveFirst(s[1..], e)
  }

  /** `RemoveFirst` takes away one copy of `e`, and nothing else. */
  lemma {:induction false} RemoveFirstMultiset<E>(s: seq<E>, e: E)
    ensures multiset(RemoveFirst(s, e)) == multiset(s) - multiset{e}
  {
    if s != [] {
      assert s == [s[0]] + s[1..];
      if s[0] != e {
        RemoveFirstMultiset(s[1..], e);
      }
    }
  }

  /** `RemoveFirst` takes out exactly the first occurrence and keeps the order of the rest. */
  lemma {:induction false} RemoveFirstAt<E>(s: seq<E>, e: E, i: nat)
    requires i < |s| && s[i] == e && e !in s[..i]
    ensures RemoveFirst(s, e) == s[..i] + s[i + 1..]
  {
    if i > 0 {
      assert s[0] != e by { assert s[0] == s[..i][0]; }
      assert s[1..][..i - 1] == s[1..i];
      assert e !in s[1..i] by {
        forall j | 1 <= j < i ensures s[j] != e {
          assert s[j] == s[..i][j];
        }
      }
      RemoveFirstAt(s[1..], e, i - 1);
      assert s[..i] == [s[0]] + s[1..][..i - 1];
      assert s[i + 1..] == s[1..][i..];
    }
  }

  /** Removing what was just appended restores the list when it was not there before. */
  lemma RemoveFirstUndoesAppend<E>(s: seq<E>, e: E)
    requires e !in s
    ensures RemoveFirst(s + [e], e) == s
  {
    assert (s + [e])[..|s|] == s;
    RemoveFirstAt(s + [e], e, |s|);
    assert (s + [e])[|s| + 1..] == [];
  }

  /** The table after the intended `Remove(k, e)` for every `k` of `keys`, in order. */
  function RemoveEach<E(==)>(m: map<Type, seq<E>>, keys: seq<Type>, e: E): map<Type, seq<E>>
  {
    if keys == [] then m
    else
      var before := RemoveEach(m, keys[..|keys| - 1], e);
      var k := keys[|keys| - 1];
      if k in before then before[k := RemoveFirst(before[k], e)] else before
  }

  /** The table after the as-written `Remove(k, e)` for every `k` of `keys`, in
      order: each step builds the updated table and then carries on with the one
      it had. */
  function DiscardEach<E(==)>(m: map<Type, seq<E>>, keys: seq<Type>, e: E): map<Type, seq<E>>
  {
    if keys == [] then m
    else
      var before := DiscardEach(m, keys[..|keys| - 1], e);
      var k := keys[|keys| - 1];
      var discarded := if k in before then before[k := RemoveFirst(before[k], e)] else before;
      before
  }

  /** The as-written removals, however many, leave the table as it was. */
  lemma {:induction false} DiscardEachUnchanged<E>(m: map<Type, seq<E>>, keys: seq<Type>, e: E)
    ensures DiscardEach(m, keys, e) == m
  {
    if keys != [] {
      DiscardEachUnchanged(m, keys[..|keys| - 1], e);
    }
  }

  /** Processing one more key removes `e` once from that key's list, if it has one. */
  lemma RemoveEachStep<E>(m: map<Type, seq<E>>, keys: seq<Type>, i: nat, e: E)
    requires i < |keys|
    ensures var before := RemoveEach(m, keys[..i], e);
      RemoveEach(m, keys[..i + 1], e) ==
        if keys[i] in before then before[keys[i] := RemoveFirst(before[keys[i]], e)] else before
  {
    assert keys[..i + 1][..i] == keys[..i];
  }

  lemma RemoveAtKey<E>(before: map<Type, seq<E>>, last: Type, e: E, k: Type)
    ensures var after := if last in before then before[last := RemoveFirst(before[last], e)] else before;
      Lookup(after, k) == if k == last then RemoveFirst(Lookup(before, k), e) else Lookup(before, k)
  {
  }

  lemma {:induction false} RemoveEachDistinct<E>(m: map<Type, seq<E>>, keys: seq<Type>, e: E, k: Type)
    requires Distinct(keys)
    ensures Lookup(RemoveEach(m, keys, e), k) == if k in keys then RemoveFirst(Lookup(m, k), e) else Lookup(m, k)
  {
    if keys != [] {
      var init, last := keys[..|keys| - 1], keys[|keys| - 1];
      DistinctSplit(keys);
      var before := RemoveEach(m, init, e);
      var after := RemoveEach(m, keys, e);
      assert after == if last in before then before[last := RemoveFirst(before[last], e)] else before;
      RemoveEachDistinct(m, init, e, k);
      RemoveAtKey(before, last, e, k);
      assert Lookup(after, k) == if k == last then RemoveFirst(Lookup(before, k), e) else Lookup(before, k);
      assert k in keys <==> k in init || k == last by {
        assert keys == init + [last];
      }
    }
  }

  /** A snapshot of the four tables of `Handlers`. */
  datatype Registry = Registry(
    instances: map<Type, seq<Obj>>,
    asyncInstances: map<Type, seq<Obj>>,
    factories: map<Type, seq<SafeFactory>>,
    asyncFactories: map<Type, seq<SafeFactory>>)

  const EmptyRegistry := Registry(map[], map[], map[], map[])

  /** `HandlersForDispatch`: the synchronous and the asynchronous handlers for one type. */
  datatype HandlersForDispatch = HandlersForDispatch(handlers: seq<Obj>, asyncHandlers: seq<Obj>)

  /** The registry after `Handlers.Register(object)`. */
  function WithInstance(reg: Registry, ts: TypeSystem, h: Obj): Registry {
    reg.(instances := AppendEach(reg.instances, NotificationTypesHandledBy(ts, TypeOf(h)), h),
         asyncInstances := AppendEach(reg.asyncInstances, AsyncNotificationTypesHandledBy(ts, TypeOf(h)), h))
  }

  /** The registry after `Handlers.Register(Type, factory)`. */
  function WithFactory(reg: Registry, ts: TypeSystem, handlerType: Type, raw: RawFactory): Registry {
    var f := SafeFactory(handlerType, raw);
    reg.(factories := AppendEach(reg.factories, NotificationTypesHandledBy(ts, handlerType), f),
         asyncFactories := AppendEach(reg.asyncFactories, AsyncNotificationTypesHandledBy(ts, handlerType), f))
  }

  /** The registry an unregistration would leave if `Remove` stored its result. */
  function WithoutInstance(reg: Registry, ts: TypeSystem, h: Obj): Registry {
    reg.(instances := RemoveEach(reg.instances, NotificationTypesHandledBy(ts, TypeOf(h)), h),
         asyncInstances := RemoveEach(reg.asyncInstances, AsyncNotificationTypesHandledBy(ts, TypeOf(h)), h))
  }

  /** The registry after `Handlers.Unregister(object)` as written. */
  function UnregisterAsWritten(reg: Registry, ts: TypeSystem, h: Obj): Registry {
    reg.(instances := DiscardEach(reg.instances, NotificationTypesHandledBy(ts, TypeOf(h)), h),
         asyncInstances := DiscardEach(reg.asyncInstances, AsyncNotificationTypesHandledBy(ts, TypeOf(h)), h))
  }

  /** As written, unregistering changes no table. */
  lemma UnregisterAsWrittenChangesNothing(reg: Registry, ts: TypeSystem, h: Obj)
    ensures UnregisterAsWritten(reg, ts, h) == reg
  {
    DiscardEachUnchanged(reg.instances, NotificationTypesHandledBy(ts, TypeOf(h)), h);
    DiscardEachUnchanged(reg.asyncInstances, AsyncNotificationTypesHandledBy(ts, TypeOf(h)), h);
  }

  /** `Handlers.GetHandlers(t)`: for each kind, the instances first, then one
      factory result per factory, both in registration order. */
  function Resolve(reg: Registry, t: Type, getService: ServiceProvider): HandlersForDispatch {
    HandlersForDispatch(
      Lookup(reg.instances, t) + InstantiateAll(Lookup(reg.factories, t), getService),
      Lookup(reg.asyncInstances, t) + InstantiateAll(Lookup(reg.asyncFactories, t), getService))
  }

  /** For each kind: every instance entry, in order, then one result per factory, in order;
      a type with no entry in a table contributes nothing from it. */
  lemma ResolveOrder(reg: Registry, t: Type, getService: ServiceProvider)
    ensures var r := Resolve(reg, t, getService);
      var inst, fs := Lookup(reg.instances, t), Lookup(reg.factories, t);
      && |r.handlers| == |inst| + |fs|
      && r.handlers[..|inst|] == inst
      && forall i :: 0 <= i < |fs| ==> r.handlers[|inst| + i] == Instantiate(fs[i], getService)
    ensures var r := Resolve(reg, t, getService);
      var inst, fs := Lookup(reg.asyncInstances, t), Lookup(reg.asyncFactories, t);
      && |r.asyncHandlers| == |inst| + |fs|
      && r.asyncHandlers[..|inst|] == inst
      && forall i :: 0 <= i < |fs| ==> r.asyncHandlers[|inst| + i] == Instantiate(fs[i], getService)
  {
    ConcatParts(Lookup(reg.instances, t), InstantiateAll(Lookup(reg.factories, t), getService));
    ConcatParts(Lookup(reg.asyncInstances, t), InstantiateAll(Lookup(reg.asyncFactories, t), getService));
  }

  lemma ConcatParts<T>(a: seq<T>, b: seq<T>)
    ensures |a + b| == |a| + |b| && (a + b)[..|a|] == a
    ensures forall i :: 0 <= i < |b| ==> (a + b)[|a| + i] == b[i]
  {
  }

  /** Registering an instance puts it, once, right after the instances already
      registered for each type its class declares, and nowhere else. */
  lemma ResolveAfterRegister(reg: Registry, ts: TypeSystem, h: Obj, t: Type, getService: ServiceProvider)
    requires Distinct(ts.interfaces(TypeOf(h)))
    ensures var before := Resolve(reg, t, getService);
      var after := Resolve(WithInstance(reg, ts, h), t, getService);
      && after.handlers == (if t in NotificationTypesHandledBy(ts, TypeOf(h))
                            then Lookup(reg.instances, t) + [h] + InstantiateAll(Lookup(reg.factories, t), getService)
                            else before.handlers)
      && after.asyncHandlers == (if t in AsyncNotificationTypesHandledBy(ts, TypeOf(h))
                                 then Lookup(reg.asyncInstances, t) + [h] + InstantiateAll(Lookup(reg.asyncFactories, t), getService)
                                 else before.asyncHandlers)
  {
    HandledTypesDistinct(ts.interfaces(TypeOf(h)), SyncHandlerDef);
    HandledTypesDistinct(ts.interfaces(TypeOf(h)), AsyncHandlerDef);
    AppendEachDistinct(reg.instances, NotificationTypesHandledBy(ts, TypeOf(h)), h, t);
    AppendEachDistinct(reg.asyncInstances, AsyncNotificationTypesHandledBy(ts, TypeOf(h)), h, t);
  }

  /** An element absent from both sides occurs once between them. */
  lemma OccursOnceBetween<T>(a: seq<T>, x: T, b: seq<T>)
    requires x !in a && x !in b
    ensures multiset(a + [x] + b)[x] == 1
  {
    assert multiset(a + [x] + b) == multiset(a) + multiset{x} + multiset(b);
  }

  /** An instance not yet in the synchronous list for a type it declares appears
      in it exactly once after it is registered. */
  lemma ResolveCountAfterRegister(reg: Registry, ts: TypeSystem, h: Obj, t: Type, getService: ServiceProvider)
    requires Distinct(ts.interfaces(TypeOf(h))) && t in NotificationTypesHandledBy(ts, TypeOf(h))
    requires h !in Lookup(reg.instances, t) && h !in InstantiateAll(Lookup(reg.factories, t), getService)
    ensures multiset(Resolve(WithInstance(reg, ts, h), t, getService).handlers)[h] == 1
  {
    ResolveAfterRegister(reg, ts, h, t, getService);
    OccursOnceBetween(Lookup(reg.instances, t), h, InstantiateAll(Lookup(reg.factories, t), getService));
  }

  /** An instance not yet in the asynchronous list for a type it declares
      appears in it exactly once after it is registered. */
  lemma ResolveAsyncCountAfterRegister(reg: Registry, ts: TypeSystem, h: Obj, t: Type, getService: ServiceProvider)
    requires Distinct(ts.interfaces(TypeOf(h))) && t in AsyncNotificationTypesHandledBy(ts, TypeOf(h))
    requires h !in Lookup(reg.asyncInstances, t) && h !in InstantiateAll(Lookup(reg.asyncFactories, t), getService)
    ensures multiset(Resolve(WithInstance(reg, ts, h), t, getService).asyncHandlers)[h] == 1
  {
    ResolveAfterRegister(reg, ts, h, t, getService);
    OccursOnceBetween(Lookup(reg.asyncInstances, t), h, InstantiateAll(Lookup(reg.asyncFactories, t), getService));
  }

  /** A factory-backed registration adds one factory per declared type and leaves the instance tables alone. */
  lemma ResolveAfterRegisterFactory(reg: Registry, ts: TypeSystem, handlerType: Type, raw: RawFactory, t: Type, getService: ServiceProvider)
    requires Distinct(ts.interfaces(handlerType))
    ensures var after := WithFactory(reg, ts, handlerType, raw);
      && after.instances == reg.instances && after.asyncInstances == reg.asyncInstances
      && Lookup(after.factories, t) == (if t in NotificationTypesHandledBy(ts, handlerType)
                                        then Lookup(reg.factories, t) + [SafeFactory(handlerType, raw)]
                                        else Lookup(reg.factories, t))
      && Lookup(after.asyncFactories, t) == (if t in AsyncNotificationTypesHandledBy(ts, handlerType)
                                             then Lookup(reg.asyncFactories, t) + [SafeFactory(handlerType, raw)]
                                             else Lookup(reg.asyncFactories, t))
  {
    HandledTypesDistinct(ts.interfaces(handlerType), SyncHandlerDef);
    HandledTypesDistinct(ts.interfaces(handlerType), AsyncHandlerDef);
    AppendEachDistinct(reg.factories, NotificationTypesHandledBy(ts, handlerType), SafeFactory(handlerType, raw), t);
    AppendEachDistinct(reg.asyncFactories, AsyncNotificationTypesHandledBy(ts, handlerType), SafeFactory(handlerType, raw), t);
  }

  /** As written, an instance that is registered and then unregistered is still
      looked up for every type it declares, synchronous and asynchronous. */
  lemma UnregisteredInstanceStillResolved(reg: Registry, ts: TypeSystem, h: Obj, t: Type, getService: ServiceProvider)
    ensures var r := Resolve(UnregisterAsWritten(WithInstance(reg, ts, h), ts, h), t, getService);
      && (t in NotificationTypesHandledBy(ts, TypeOf(h)) ==> h in r.handlers)
      && (t in AsyncNotificationTypesHandledBy(ts, TypeOf(h)) ==> h in r.asyncHandlers)
  {
    var after := WithInstance(reg, ts, h);
    UnregisterAsWrittenChangesNothing(after, ts, h);
    var r := Resolve(after, t, getService);
    var declared := NotificationTypesHandledBy(ts, TypeOf(h));
    if t in declared {
      AppendEachLookup(reg.instances, declared, h, t);
      assert multiset(declared)[t] > 0;
      var inst := Lookup(after.instances, t);
      assert inst[|Lookup(reg.instances, t)|] == h;
      assert r.handlers[..|inst|] == inst;
    }
    var asyncDeclared := AsyncNotificationTypesHandledBy(ts, TypeOf(h));
    if t in asyncDeclared {
      AppendEachLookup(reg.asyncInstances, asyncDeclared, h, t);
      assert multiset(asyncDeclared)[t] > 0;
      var inst := Lookup(after.asyncInstances, t);
      assert inst[|Lookup(reg.asyncInstances, t)|] == h;
      assert r.asyncHandlers[..|inst|] == inst;
    }
  }

  /** Intended unregistration undoes a registration of an instance that was not registered before. */
  lemma UnregisterUndoesRegister(reg: Registry, ts: TypeSystem, h: Obj, t: Type)
    requires Distinct(ts.interfaces(TypeOf(h)))
    requires h !in Lookup(reg.instances, t) && h !in Lookup(reg.asyncInstances, t)
    ensures var after := WithoutInstance(WithInstance(reg, ts, h), ts, h);
      && Lookup(after.instances, t) == Lookup(reg.instances, t)
      && Lookup(after.asyncInstances, t) == Lookup(reg.asyncInstances, t)
      && after.factories == reg.factories && after.asyncFactories == reg.asyncFactories
  {
    var sync := NotificationTypesHandledBy(ts, TypeOf(h));
    var async := AsyncNotificationTypesHandledBy(ts, TypeOf(h));
    HandledTypesDistinct(ts.interfaces(TypeOf(h)), SyncHandlerDef);
    HandledTypesDistinct(ts.interfaces(TypeOf(h)), AsyncHandlerDef);
    var added := WithInstance(reg, ts, h);
    AppendEachDistinct(reg.instances, sync, h, t);
    AppendEachDistinct(reg.asyncInstances, async, h, t);
    RemoveEachDistinct(added.instances, sync, h, t);
    RemoveEachDistinct(added.asyncInstances, async, h, t);
    if t in sync {
      RemoveFirstUndoesAppend(Lookup(reg.instances, t), h);
    }
    if t in async {
      RemoveFirstUndoesAppend(Lookup(reg.asyncInstances, t), h);
    }
  }

  /** `InstanceHandlers`: a table of handler objects, replaced wholesale on every change. */
  class InstanceHandlers {
    var handlers: map<Type, seq<Obj>>

    constructor ()
      ensures handlers == map[]
    {
      handlers := map[];
    }

    function GetHandlers(t: Type): (r: seq<Obj>)
      reads this
      ensures t !in handlers ==> r == []
      ensures t in handlers ==> r == handlers[t]
    {
      Lookup(handlers, t)
    }

    /** Appends `h` to the list for `t`, creating it if needed; duplicates are kept. */
    method Add(t: Type, h: Obj)
      modifies this
      ensures handlers == old(handlers)[t := old(GetHandlers(t)) + [h]]
    {
      var currentList := if t in handlers then handlers[t] else [];
      var newList := currentList + [h];
      handlers := handlers[t := newList];
    }

    /** As written: the updated table is computed and then discarded. */
    method Remove(t: Type, h: Obj)
      modifies this
      ensures handlers == old(handlers)
    {
      if t in handlers {
        var discarded := handlers[t := RemoveFirst(handlers[t], h)];
      }
    }

    /** What `Remove` evidently means to do: store the updated table. */
    method RemoveIntended(t: Type, h: Obj)
      modifies this
      ensures handlers == if t in old(handlers) then old(handlers)[t := RemoveFirst(old(handlers)[t], h)] else old(handlers)
    {
      if t in handlers {
        handlers := handlers[t := RemoveFirst(handlers[t], h)];
      }
    }
  }

  /** `ServiceHandlers`: a table of factories, replaced wholesale on every change. */
  class ServiceHandlers {
    var factories: map<Type, seq<SafeFactory>>

    constructor ()
      ensures factories == map[]
    {
      factories := map[];
    }

    /** Calls every factory registered for `t`, in order; no entry gives no handlers. */
    function GetHandlers(t: Type, getService: ServiceProvider): (r: seq<Obj>)
      reads this
      ensures t !in factories ==> r == []
      ensures t in factories ==>
        (|r| == |factories[t]| && forall i :: 0 <= i < |r| ==> r[i] == Instantiate(factories[t][i], getService))
    {
      InstantiateAll(Lookup(factories, t), getService)
    }

    method Add(t: Type, f: SafeFactory)
      modifies this
      ensures factories == old(factories)[t := Lookup(old(factories), t) + [f]]
    {
      var currentList := if t in factories then factories[t] else [];
      var newList := currentList + [f];
      factories := factories[t := newList];
    }
  }

  /** `Handlers`: the four tables. */
  class Handlers {
    const instanceHandlers: InstanceHandlers
    const asyncInstanceHandlers: InstanceHandlers
    const serviceHandlers: ServiceHandlers
    const asyncServiceHandlers: ServiceHandlers

    predicate Valid() {
      instanceHandlers != asyncInstanceHandlers && serviceHandlers != asyncServiceHandlers
    }

    function Model(): Registry
      reads instanceHandlers, asyncInstanceHandlers, serviceHandlers, asyncServiceHandlers
    {
      Registry(instanceHandlers.handlers, asyncInstanceHandlers.handlers,
               serviceHandlers.factories, asyncServiceHandlers.factories)
    }

    constructor ()
      ensures Valid() && Model() == EmptyRegistry
      ensures fresh(instanceHandlers) && fresh(asyncInstanceHandlers)
      ensures fresh(serviceHandlers) && fresh(asyncServiceHandlers)
    {
      instanceHandlers := new InstanceHandlers();
      asyncInstanceHandlers := new InstanceHandlers();
      serviceHandlers := new ServiceHandlers();
      asyncServiceHandlers := new ServiceHandlers();
    }

    /** `Register(Type, factory)`: one shared safe factory per declared type and kind. */
    method RegisterFactory(ts: TypeSystem, handlerType: Type, factory: RawFactory)
      requires Valid()
      modifies serviceHandlers, asyncServiceHandlers
      ensures Model() == WithFactory(old(Model()), ts, handlerType, factory)
    {
      var safeFactory := SafeFactory(handlerType, factory);
      var types := NotificationTypesHandledBy(ts, handlerType);
      for i := 0 to |types|
        invariant serviceHandlers.factories == AppendEach(old(serviceHandlers.factories), types[..i], safeFactory)
        invariant asyncServiceHandlers.factories == old(asyncServiceHandlers.factories)
      {
        AppendEachStep(old(serviceHandlers.factories), types, i, safeFactory);
        serviceHandlers.Add(types[i], safeFactory);
      }
      assert types[..|types|] == types;
      var asyncTypes := AsyncNotificationTypesHandledBy(ts, handlerType);
      for i := 0 to |asyncTypes|
        invariant asyncServiceHandlers.factories == AppendEach(old(asyncServiceHandlers.factories), asyncTypes[..i], safeFactory)
        invariant serviceHandlers.factories == AppendEach(old(serviceHandlers.factories), types, safeFactory)
      {
        AppendEachStep(old(asyncServiceHandlers.factories), asyncTypes, i, safeFactory);
        asyncServiceHandlers.Add(asyncTypes[i], safeFactory);
      }
      assert asyncTypes[..|asyncTypes|] == asyncTypes;
    }

    /** `Register(object)`: the instance once per declared type and kind. */
    method Register(ts: TypeSystem, h: Obj)
      requires Valid()
      modifies instanceHandlers, asyncInstanceHandlers
      ensures Model() == WithInstance(old(Model()), ts, h)
    {
      var types := NotificationTypesHandledBy(ts, TypeOf(h));
      for i := 0 to |types|
        invariant instanceHandlers.handlers == AppendEach(old(instanceHandlers.handlers), types[..i], h)
        invariant asyncInstanceHandlers.handlers == old(asyncInstanceHandlers.handlers)
      {
        AppendEachStep(old(instanceHandlers.handlers), types, i, h);
        instanceHandlers.Add(types[i], h);
      }
      assert types[..|types|] == types;
      var asyncTypes := AsyncNotificationTypesHandledBy(ts, TypeOf(h));
      for i := 0 to |asyncTypes|
        invariant asyncInstanceHandlers.handlers == AppendEach(old(asyncInstanceHandlers.handlers), asyncTypes[..i], h)
        invariant instanceHandlers.handlers == AppendEach(old(instanceHandlers.handlers), types, h)
      {
        AppendEachStep(old(asyncInstanceHandlers.handlers), asyncTypes, i, h);
        asyncInstanceHandlers.Add(asyncTypes[i], h);
      }
      assert asyncTypes[..|asyncTypes|] == asyncTypes;
    }

    /** `Unregister(object)` as written: every `Remove` is a no-op, so nothing changes. */
    method Unregister(ts: TypeSystem, h: Obj)
      requires Valid()
      modifies instanceHandlers, asyncInstanceHandlers
      ensures Model() == UnregisterAsWritten(old(Model()), ts, h)
      ensures Model() == old(Model())
    {
      var types := NotificationTypesHandledBy(ts, TypeOf(h));
      for i := 0 to |types|
        invariant instanceHandlers.handlers == DiscardEach(old(instanceHandlers.handlers), types[..i], h)
        invariant asyncInstanceHandlers.handlers == old(asyncInstanceHandlers.handlers)
      {
        assert types[..i + 1][..i] == types[..i];
        DiscardEachUnchanged(old(instanceHandlers.handlers), types[..i], h);
        instanceHandlers.Remove(types[i], h);
      }
      assert types[..|types|] == types;
      var asyncTypes := AsyncNotificationTypesHandledBy(ts, TypeOf(h));
      for i := 0 to |asyncTypes|
        invariant asyncInstanceHandlers.handlers == DiscardEach(old(asyncInstanceHandlers.handlers), asyncTypes[..i], h)
        invariant instanceHandlers.handlers == DiscardEach(old(instanceHandlers.handlers), types, h)
      {
        assert asyncTypes[..i + 1][..i] == asyncTypes[..i];
        DiscardEachUnchanged(old(asyncInstanceHandlers.handlers), asyncTypes[..i], h);
        asyncInstanceHandlers.Remove(asyncTypes[i], h);
      }
      assert asyncTypes[..|asyncTypes|] == asyncTypes;
      UnregisterAsWrittenChangesNothing(old(Model()), ts, h);
    }

    /** `Unregister(object)` with the intended `Remove`. */
    method UnregisterIntended(ts: TypeSystem, h: Obj)
      requires Valid()
      modifies instanceHandlers, asyncInstanceHandlers
      ensures Model() == WithoutInstance(old(Model()), ts, h)
    {
      var types := NotificationTypesHandledBy(ts, TypeOf(h));
      for i := 0 to |types|
        invariant instanceHandlers.handlers == RemoveEach(old(instanceHandlers.handlers), types[..i], h)
        invariant asyncInstanceHandlers.handlers == old(asyncInstanceHandlers.handlers)
      {
        RemoveEachStep(old(instanceHandlers.handlers), types, i, h);
        instanceHandlers.RemoveIntended(types[i], h);
      }
      assert types[..|types|] == types;
      var asyncTypes := AsyncNotificationTypesHandledBy(ts, TypeOf(h));
      for i := 0 to |asyncTypes|
        invariant asyncInstanceHandlers.handlers == RemoveEach(old(asyncInstanceHandlers.handlers), asyncTypes[..i], h)
        invariant instanceHandlers.handlers == RemoveEach(old(instanceHandlers.handlers), types, h)
      {
        RemoveEachStep(old(asyncInstanceHandlers.handlers), asyncTypes, i, h);
        asyncInstanceHandlers.RemoveIntended(asyncTypes[i], h);
      }
      assert asyncTypes[..|asyncTypes|] == asyncTypes;
    }

    /** `GetHandlers(t)`: a snapshot of the current tables, with factories called now. */
    function GetHandlers(t: Type, getService: ServiceProvider): (r: HandlersForDispatch)
      reads instanceHandlers, asyncInstanceHandlers, serviceHandlers, asyncServiceHandlers
      ensures r == Resolve(Model(), t, getService)
    {
      HandlersForDispatch(
        instanceHandlers.GetHandlers(t) + serviceHandlers.GetHandlers(t, getService),
        asyncInstanceHandlers.GetHandlers(t) + asyncServiceHandlers.GetHandlers(t, getService))
    }
  }
}
