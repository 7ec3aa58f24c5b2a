/** The part of the CLR type system the dispatcher reaches through reflection,
    modelled abstractly: a type is a name or a one-argument generic interface
    instantiation, and what reflection would report about a type
    (`BaseType`, `GetInterfaces()`, `IsAssignableFrom`, `GetMethod`) is a
    function carried by a `TypeSystem` value. */
module TypeModel {

  datatype Option<+T> = None | Some(value: T)

  /** Generic type definitions the dispatcher compares against
      (`typeof(INotificationHandler<>)`, `typeof(IAsyncNotificationHandler<>)`). */
  datatype GenericDef = SyncHandlerDef | AsyncHandlerDef | OtherGenericDef(name: string)

  datatype Type = Named(name: string) | Generic(def: GenericDef, arg: Type)

  const ObjectType: Type := Named("System.Object")
  const TaskType: Type := Named("System.Threading.Tasks.Task")
  const InstantiationFailureType: Type := Named("DispatchR.InstantiationFailure")
  const ComponentType: Type := Named("DispatchR.DispatcherComponent")

  /** A runtime object as the registry sees it: identity plus runtime type,
      or the marker record that replaces a factory's null result. */
  datatype Obj = Object(id: nat, typ: Type) | InstantiationFailure(handlerType: Type)

  /** `GetType()` */
  function TypeOf(o: Obj): Type {
    match o
    case Object(_, t) => t
    case InstantiationFailure(_) => InstantiationFailureType
  }

  predicate Distinct<T(==)>(s: seq<T>) {
    forall i, j :: 0 <= i < j < |s| ==> s[i] != s[j]
  }

  /** What reflection reports about types.
      - `baseOf(t)` is `t.BaseType` (`None` for null),
      - `interfaces(t)` is `t.GetInterfaces()`,
      - `rank` is a witness that the base relation is well-founded,
      - `assignable(target, source)` is `target.IsAssignableFrom(source)`,
      - `invokeMethod(i)` is the return type of the `Handle`/`HandleAsync`
        method found on handler interface `i` (`None` when `GetMethod` gives null). */
  datatype TypeSystem = TypeSystem(
    baseOf: Type -> Option<Type>,
    interfaces: Type -> seq<Type>,
    isInterface: Type -> bool,
    rank: Type -> nat,
    assignable: (Type, Type) -> bool,
    invokeMethod: Type -> Option<Type>)
  {
    /** Single inheritance has no cycles: every base type ranks lower. */
    ghost predicate Acyclic() {
      forall t :: baseOf(t).Some? ==> rank(baseOf(t).value) < rank(t)
    }

    /** Classes derive from classes; `GetInterfaces()` lists interfaces, each once. */
    ghost predicate ClassHierarchy() {
      && (forall t :: baseOf(t).Some? ==> !isInterface(baseOf(t).value))
      && (forall t, i :: i in interfaces(t) ==> isInterface(i))
      && (forall t :: Distinct(interfaces(t)))
    }

    /** A type is assignable to every interface it implements. */
    ghost predicate InterfacesAssignable() {
      forall t, i :: i in interfaces(t) ==> assignable(i, t)
    }

    /** The handler interfaces as declared: `Handle(T)` exists on every
        `INotificationHandler<T>`, and `HandleAsync(T)` returns `Task` on every
        `IAsyncNotificationHandler<T>`. */
    ghost predicate StandardHandlerShapes() {
      && (forall x :: invokeMethod(Generic(SyncHandlerDef, x)).Some?)
      && (forall x :: invokeMethod(Generic(AsyncHandlerDef, x)) == Some(TaskType))
    }
  }

  /** The types visited by following `BaseType` from `t` until it is null;
      the root is included. */
  function BaseChain(ts: TypeSystem, t: Type): (chain: seq<Type>)
    requires ts.Acyclic()
    ensures |chain| >= 1 && chain[0] == t
    decreases ts.rank(t)
  {
    match ts.baseOf(t)
    case None => [t]
    case Some(b) => [t] + BaseChain(ts, b)
  }

  /** Independent description of a base-type walk: starts at `t`, each
      element's base type is the next one, and the last has no base type. */
  ghost predicate IsBaseChain(ts: TypeSystem, t: Type, c: seq<Type>) {
    && |c| >= 1 && c[0] == t
    && (forall i :: 0 <= i < |c| - 1 ==> ts.baseOf(c[i]) == Some(c[i + 1]))
    && ts.baseOf(c[|c| - 1]) == None
  }

  /** A walk continues exactly when its first type has a base type. */
  lemma WalkContinuesIffBase(ts: TypeSystem, t: Type, c: seq<Type>)
    requires IsBaseChain(ts, t, c)
    ensures |c| > 1 <==> ts.baseOf(t).Some?
  {
    if |c| > 1 {
      assert ts.baseOf(c[0]) == Some(c[1]);
    }
  }

  lemma {:induction false} BaseChainIsTheWalk(ts: TypeSystem, t: Type, c: seq<Type>)
    requires ts.Acyclic()
    ensures IsBaseChain(ts, t, BaseChain(ts, t))
    ensures IsBaseChain(ts, t, c) ==> c == BaseChain(ts, t)
    decreases ts.rank(t)
  {
    var chain := BaseChain(ts, t);
    match ts.baseOf(t)
    case None =>
      if IsBaseChain(ts, t, c) {
        WalkContinuesIffBase(ts, t, c);
        assert c == [t];
      }
    case Some(b) =>
      var rest := BaseChain(ts, b);
      BaseChainIsTheWalk(ts, b, if |c| >= 1 then c[1..] else c);
      assert chain == [t] + rest;
      forall i | 0 <= i < |chain| - 1
        ensures ts.baseOf(chain[i]) == Some(chain[i + 1])
      {
        if i > 0 {
          assert chain[i] == rest[i - 1] && chain[i + 1] == rest[i];
        }
      }
      if IsBaseChain(ts, t, c) {
        WalkContinuesIffBase(ts, t, c);
        assert ts.baseOf(c[0]) == Some(c[1]);
        assert IsBaseChain(ts, b, c[1..]) by {
          forall i | 0 <= i < |c[1..]| - 1
            ensures ts.baseOf(c[1..][i]) == Some(c[1..][i + 1])
          {
            assert ts.baseOf(c[i + 1]) == Some(c[i + 2]);
          }
        }
        assert c == [t] + c[1..];
      }
  }

  /** The walk strictly descends in rank, so it is finite and bounded by the rank of its start. */
  lemma {:induction false} BaseChainDescends(ts: TypeSystem, t: Type)
    requires ts.Acyclic()
    ensures var c := BaseChain(ts, t);
      && |c| <= ts.rank(t) + 1
      && forall i, j :: 0 <= i < j < |c| ==> ts.rank(c[j]) < ts.rank(c[i])
    decreases ts.rank(t)
  {
    match ts.baseOf(t)
    case None =>
    case Some(b) =>
      BaseChainDescends(ts, b);
      var rest := BaseChain(ts, b);
      var c := BaseChain(ts, t);
      assert c == [t] + rest;
      forall i, j | 0 <= i < j < |c|
        ensures ts.rank(c[j]) < ts.rank(c[i])
      {
        assert c[j] == rest[j - 1];
        if i > 0 {
          assert c[i] == rest[i - 1];
        } else {
          assert ts.rank(rest[0]) < ts.rank(t);
          if j > 1 {
            assert ts.rank(rest[j - 1]) < ts.rank(rest[0]);
          }
        }
      }
  }

  /** Every type on the walk from a class is a class. */
  lemma {:induction false} BaseChainHasNoInterfaces(ts: TypeSystem, t: Type)
    requires ts.Acyclic() && ts.ClassHierarchy() && !ts.isInterface(t)
    ensures forall u :: u in BaseChain(ts, t) ==> !ts.isInterface(u)
    decreases ts.rank(t)
  {
    match ts.baseOf(t)
    case None =>
    case Some(b) =>
      BaseChainHasNoInterfaces(ts, b);
  }

  /** The dispatch type list of a notification of runtime type `t`:
      the base-type walk, then `GetInterfaces()`. */
  function DispatchTypes(ts: TypeSystem, t: Type): seq<Type>
    requires ts.Acyclic()
  {
    BaseChain(ts, t) + ts.interfaces(t)
  }

  /** No type occurs twice in the dispatch type list of a (non-interface) runtime type. */
  lemma DispatchTypesDistinct(ts: TypeSystem, t: Type)
    requires ts.Acyclic() && ts.ClassHierarchy() && !ts.isInterface(t)
    ensures Distinct(DispatchTypes(ts, t))
  {
    var c := BaseChain(ts, t);
    var ifs := ts.interfaces(t);
    BaseChainDescends(ts, t);
    BaseChainHasNoInterfaces(ts, t);
    assert Distinct(ifs);
    var all := c + ifs;
    forall i, j | 0 <= i < j < |all|
      ensures all[i] != all[j]
    {
      if j < |c| {
        assert ts.rank(c[j]) < ts.rank(c[i]);
      } else if i >= |c| {
        assert all[i] == ifs[i - |c|] && all[j] == ifs[j - |c|];
      } else {
        assert all[i] in c && all[j] == ifs[j - |c|] && all[j] in ifs;
        assert ts.isInterface(all[j]);
      }
    }
  }

  /** A class `T` deriving from `A` deriving from the root, implementing `[I1, I2]`,
      is dispatched as `T`, `A`, the root, `I1`, `I2`. */
  lemma DispatchTypesOfThreeLevelClass(ts: TypeSystem, t: Type, a: Type, i1: Type, i2: Type)
    requires ts.Acyclic()
    requires ts.baseOf(t) == Some(a) && ts.baseOf(a) == Some(ObjectType) && ts.baseOf(ObjectType) == None
    requires ts.interfaces(t) == [i1, i2]
    ensures DispatchTypes(ts, t) == [t, a, ObjectType, i1, i2]
  {
    assert BaseChain(ts, ObjectType) == [ObjectType];
    assert BaseChain(ts, a) == [a, ObjectType];
  }

  /** The generic arguments of the interfaces in `ifaces` whose generic
      definition is `def`, in `GetInterfaces()` order. */
  function HandledTypes(ifaces: seq<Type>, def: GenericDef): (r: seq<Type>)
    ensures forall x :: x in r <==> Generic(def, x) in ifaces
    ensures |r| <= |ifaces|
  {
    if ifaces == [] then []
    else
      var rest := HandledTypes(ifaces[1..], def);
      assert ifaces == [ifaces[0]] + ifaces[1..];
      if ifaces[0].Generic? && ifaces[0].def == def then [ifaces[0].arg] + rest else rest
  }

  /** Each declared notification type is reported once when the interfaces are distinct. */
  lemma {:induction false} HandledTypesDistinct(ifaces: seq<Type>, def: GenericDef)
    requires Distinct(ifaces)
    ensures Distinct(HandledTypes(ifaces, def))
  {
    if ifaces != [] {
      var tail := ifaces[1..];
      assert Distinct(tail) by {
        forall i, j | 0 <= i < j < |tail| ensures tail[i] != tail[j] {
          assert tail[i] == ifaces[i + 1] && tail[j] == ifaces[j + 1];
        }
      }
      HandledTypesDistinct(tail, def);
      var r := HandledTypes(ifaces, def);
      if ifaces[0].Generic? && ifaces[0].def == def {
        var rest := HandledTypes(tail, def);
        assert r == [ifaces[0].arg] + rest;
        assert ifaces[0] !in tail by {
          forall k | 0 <= k < |tail| ensures tail[k] != ifaces[0] {
            assert tail[k] == ifaces[k + 1];
          }
        }
        assert ifaces[0].arg !in rest;
        forall i, j | 0 <= i < j < |r| ensures r[i] != r[j] {
          if i > 0 {
            assert r[i] == rest[i - 1] && r[j] == rest[j - 1];
          } else {
            assert r[j] == rest[j - 1] && r[j] in rest;
          }
        }
      }
    }
  }

  /** `GetNotificationTypesHandledBy(handlerType)`: the `T` of every implemented `INotificationHandler<T>`. */
  function NotificationTypesHandledBy(ts: TypeSystem, handlerType: Type): seq<Type> {
    HandledTypes(ts.interfaces(handlerType), SyncHandlerDef)
  }

  /** `GetAsyncNotificationTypesHandledBy(handlerType)`: the `T` of every implemented `IAsyncNotificationHandler<T>`. */
  function AsyncNotificationTypesHandledBy(ts: TypeSystem, handlerType: Type): seq<Type> {
    HandledTypes(ts.interfaces(handlerType), AsyncHandlerDef)
  }

  const StringType: Type := Named("System.String")
  const Int32Type: Type := Named("System.Int32")

  /** A handler class implementing `INotificationHandler<string>` and
      `IAsyncNotificationHandler<int>` handles `string` synchronously and `int` asynchronously. */
  lemma MixedHandlerDeclarations(ts: TypeSystem, handler: Type)
    requires ts.interfaces(handler) == [Generic(SyncHandlerDef, StringType), Generic(AsyncHandlerDef, Int32Type)]
    ensures NotificationTypesHandledBy(ts, handler) == [StringType]
    ensures AsyncNotificationTypesHandledBy(ts, handler) == [Int32Type]
  {
    var ifs := ts.interfaces(handler);
    assert ifs[1..] == [Generic(AsyncHandlerDef, Int32Type)];
    assert ifs[1..][1..] == [];
    assert HandledTypes(ifs[1..], SyncHandlerDef) == [];
    assert HandledTypes(ifs[1..], AsyncHandlerDef) == [Int32Type];
  }
}
