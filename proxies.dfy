/**
 * The proxy factories of ProxyUtils (getProxy, getWeakProxy) and what a
 * call on the resulting proxy does. Proxy.newProxyInstance is replaced by
 * a record of what it is given: the interfaces to bind and the handler.
 */
module Proxies {
  import opened Runtime
  import opened Discovery
  import opened DiscoveryOrder
  import opened Dispatch

  /** The two InvocationHandler implementations. */
  datatype InvocationHandler = Intercepting(strong: StrongHandler) | Forwarding(weak: WeakHandler)

  /** A proxy instance: the interfaces it implements and the handler its calls go to. */
  datatype Proxy = Proxy(interfaces: seq<ClassId>, handler: InvocationHandler)

  // ---------------------------------------------------------------------
  // Factories
  // ---------------------------------------------------------------------

  /**
   * getProxy(object, handler): a null object throws NullPointerException
   * at object.getClass(); otherwise the proxy binds every interface the
   * object's class implements, each once, and intercepts through handler.
   */
  method GetProxyWithHandler(h: Hierarchy, target: Option<Subject>, handler: Option<ProxyHandler>)
    returns (r: Outcome<Proxy>)
    requires Acyclic(h)
    ensures target.None? <==> r.Raised?
    ensures r.Raised? ==> r.thrown == Exception
    ensures target.Some? ==> r.value == Proxy(AllInterfaces(h, target.value.cls), Intercepting(StrongHandler(target.value, handler)))
    ensures target.Some? ==> NoDuplicates(r.value.interfaces)
    ensures target.Some? ==> forall t :: t in r.value.interfaces <==> Provides(h, target.value.cls, t)
  {
    if target.None? {
      return Raised(Exception);
    }
    var clazzes := GetAllInterfaces(h, Some(target.value.cls));
    r := Normal(Proxy(clazzes.value, Intercepting(StrongHandler(target.value, handler))));
  }

  /** getProxy(object): getProxy(object, null), a proxy with no ProxyHandler. */
  method GetProxy(h: Hierarchy, target: Option<Subject>) returns (r: Outcome<Proxy>)
    requires Acyclic(h)
    ensures target.None? <==> r.Raised?
    ensures r.Raised? ==> r.thrown == Exception
    ensures target.Some? ==> r.value == Proxy(AllInterfaces(h, target.value.cls), Intercepting(StrongHandler(target.value, None)))
    ensures target.Some? ==> forall t :: t in r.value.interfaces <==> Provides(h, target.value.cls, t)
  {
    r := GetProxyWithHandler(h, target, None);
  }

  /** getProxy(object, clazz, handler): binds clazz alone; a null object throws NullPointerException. */
  function GetProxyAs(target: Option<Subject>, clazz: ClassId, handler: Option<ProxyHandler>): (r: Outcome<Proxy>)
    ensures target.None? <==> r == Raised(Exception)
    ensures target.Some? ==> r.Normal? && r.value.interfaces == [clazz]
    ensures target.Some? ==> r.value.handler == Intercepting(StrongHandler(target.value, handler))
  {
    match target
    case None => Raised(Exception)
    case Some(s) => Normal(Proxy([clazz], Intercepting(StrongHandler(s, handler))))
  }

  /** getProxy(object, clazzes, handler): binds the given array as is; a null object throws NullPointerException. */
  function GetProxyAsAll(target: Option<Subject>, clazzes: seq<ClassId>, handler: Option<ProxyHandler>): (r: Outcome<Proxy>)
    ensures target.None? <==> r == Raised(Exception)
    ensures target.Some? ==> r.Normal? && r.value.interfaces == clazzes
    ensures target.Some? ==> r.value.handler == Intercepting(StrongHandler(target.value, handler))
  {
    match target
    case None => Raised(Exception)
    case Some(s) => Normal(Proxy(clazzes, Intercepting(StrongHandler(s, handler))))
  }

  /**
   * getWeakProxy(object): null for a null object; otherwise a proxy that
   * holds the object weakly and binds only the interfaces its class
   * declares directly (getClass().getInterfaces()).
   */
  function GetWeakProxy(h: Hierarchy, target: Option<Subject>): (r: Option<Proxy>)
    ensures target.None? <==> r.None?
    ensures target.Some? ==> r.value.interfaces == Interfaces(h, target.value.cls)
    ensures target.Some? ==> r.value.handler == Forwarding(WeakHandler(Some(target.value)))
  {
    match target
    case None => None
    case Some(s) => Some(Proxy(Interfaces(h, s.cls), Forwarding(WeakHandler(Some(s)))))
  }

  /** getWeakProxy(object, clazz): null for a null object; otherwise a weak proxy binding clazz alone. */
  function GetWeakProxyAs(target: Option<Subject>, clazz: ClassId): (r: Option<Proxy>)
    ensures target.None? <==> r.None?
    ensures target.Some? ==> r.value.interfaces == [clazz]
    ensures target.Some? ==> r.value.handler == Forwarding(WeakHandler(Some(target.value)))
  {
    match target
    case None => None
    case Some(s) => Some(Proxy([clazz], Forwarding(WeakHandler(Some(s)))))
  }

  // ---------------------------------------------------------------------
  // Calls on a proxy
  // ---------------------------------------------------------------------

  /**
   * What the proxy class does with the value its handler's invoke returns:
   * for a void method the value is dropped; for a reference type it is
   * passed on; for a primitive type it is unboxed, so null throws
   * NullPointerException. A throwable from invoke passes through unchanged
   * (only an Error escapes a handler, and an Error is never wrapped).
   */
  function Deliver(kind: ReturnKind, result: Outcome<Value>): (r: Outcome<Value>)
    ensures result.Raised? ==> r == result
    ensures r.Raised? && !result.Raised? <==> kind == PrimitiveReturn && result == Normal(Null)
    ensures r.Raised? && !result.Raised? ==> r.thrown == Exception
    ensures r.Normal? && kind != VoidReturn ==> r == result
    ensures r.Normal? && kind == VoidReturn ==> r == Normal(Null)
  {
    match result
    case Raised(_) => result
    case Normal(v) =>
      match kind
      case VoidReturn => Normal(Null)
      case ReferenceReturn => result
      case PrimitiveReturn => if v == Null then Raised(Exception) else result
  }

  /** The report of the handler's invoke for a call on the proxy. */
  function HandlerInvoke(hd: InvocationHandler, call: Call): (r: Report)
    ensures hd.Intercepting? ==> r == StrongInvoke(hd.strong, call)
    ensures hd.Forwarding? ==> r == WeakInvoke(hd.weak, call)
  {
    match hd
    case Intercepting(sh) => StrongInvoke(sh, call)
    case Forwarding(wh) => WeakInvoke(wh, call)
  }

  /**
   * A call on a proxy goes to its handler's invoke, and the proxy class
   * then converts the returned value to the method's return type. Through a
   * weak proxy only that unboxing can throw; through a strong one an Error
   * from the ProxyHandler or from Method.invoke escapes as well.
   */
  function CallThrough(p: Proxy, call: Call): (r: Report)
    ensures var inner := HandlerInvoke(p.handler, call);
      && r.forwarded == inner.forwarded && r.caught == inner.caught
      && r.result == Deliver(call.member.kind, inner.result)
    ensures p.handler.Forwarding? && call.member.kind != PrimitiveReturn ==> r.result.Normal?
    ensures r.result == Raised(Exception) ==>
      call.member.kind == PrimitiveReturn && HandlerInvoke(p.handler, call).result == Normal(Null)
  {
    var inner := HandlerInvoke(p.handler, call);
    Report(Deliver(call.member.kind, inner.result), inner.forwarded, inner.caught)
  }

  /**
   * The environment collects an object: every weak reference to it is
   * cleared, while a strong handler keeps its object alive.
   */
  function Collect(p: Proxy): (q: Proxy)
    ensures q.interfaces == p.interfaces
    ensures p.handler.Intercepting? ==> q == p
    ensures p.handler.Forwarding? ==> q.handler == Forwarding(WeakHandler(None))
  {
    match p.handler
    case Intercepting(_) => p
    case Forwarding(wh) => Proxy(p.interfaces, Forwarding(Collected(wh)))
  }

  /**
   * A weak proxy does not keep its object alive: once the object is
   * collected, a call reaches nothing and gives null, which a primitive
   * return type turns into NullPointerException.
   */
  lemma WeakProxyOutlivesTarget(h: Hierarchy, s: Subject, call: Call)
    ensures var p := GetWeakProxy(h, Some(s)).value;
      && CallThrough(p, call).forwarded
      && (call.member.kind != PrimitiveReturn ==> CallThrough(Collect(p), call) == Report(Normal(Null), false, []))
      && (call.member.kind == PrimitiveReturn ==> CallThrough(Collect(p), call) == Report(Raised(Exception), false, []))
  {
    CollectedIsInert(WeakHandler(Some(s)), call);
  }

  /**
   * A weak proxy of a live object forwards each call as safeInvoke would;
   * the caller sees safeInvoke's value converted to the return type, so a
   * failed call on a primitive method throws NullPointerException.
   */
  lemma WeakProxyCallIsSafeInvoke(h: Hierarchy, s: Subject, call: Call)
    ensures var safe := SafeInvoke(ProxyBulk(Some(s), Some(call.member), call.args));
      var r := CallThrough(GetWeakProxy(h, Some(s)).value, call);
      && r.forwarded == safe.forwarded && r.caught == safe.caught
      && (call.member.kind == ReferenceReturn ==> r == safe)
      && (call.member.kind == VoidReturn ==> r.result == Normal(Null))
      && (call.member.kind == PrimitiveReturn ==> (r.result.Raised? <==> safe.result == Normal(Null)))
  {
    WeakIsSafeInvoke(s, call);
  }

  /**
   * On a strong proxy, a call on a primitive method that the ProxyHandler
   * vetoes reaches nothing and throws NullPointerException at the caller.
   */
  lemma VetoedPrimitiveThrows(p: Proxy, call: Call)
    requires p.handler.Intercepting? && call.member.kind == PrimitiveReturn
    requires p.handler.strong.handler.Some?
    requires p.handler.strong.handler.value.onPreCalled(Reference(p.handler.strong.subject), call) == Normal(false)
    ensures CallThrough(p, call) == Report(Raised(Exception), false, [])
  {
    VetoShortCircuits(p.handler.strong, call);
  }

  // ---------------------------------------------------------------------
  // What each factory binds
  // ---------------------------------------------------------------------

  /** The interfaces getWeakProxy binds are among those getProxy binds. */
  lemma WeakBindsFewer(h: Hierarchy, c: ClassId)
    requires Acyclic(h)
    ensures forall t :: t in Interfaces(h, c) ==> t in AllInterfaces(h, c)
  {
    WalkCoversDeclared(h, c, []);
    assert Chain(h, c)[0] == c;
    forall t | t in Interfaces(h, c) ensures t in AllInterfaces(h, c) {
      assert c in Chain(h, c) && t in Succ(h, c);
    }
  }

  /**
   * On a hierarchy of the worked shape, a weak proxy of a C object binds
   * only X and Y, while getProxy also binds Z (extended by X) and W (from
   * superclass B).
   */
  lemma WeakProxyMissesInherited(h: Hierarchy, s: Subject)
    requires Acyclic(h) && SampleShape(h) && s.cls == C
    ensures GetWeakProxy(h, Some(s)).value.interfaces == [X, Y]
    ensures AllInterfaces(h, C) == [X, Z, Y, W]
  {
    ShapeDiscovery(h);
  }
}
