/**
 * What happens when a method is called through one of the two invocation
 * handlers (ProxyInvocationHandler, WeakProxyInvocationHandler), and
 * through ProxyBulk.safeInvoke.
 *
 * Reflection is replaced by data: the object behind a proxy answers each
 * call through `respond`, which stands for Method.invoke on that object,
 * and a ProxyHandler answers onPreCalled through a function of the same
 * kind. A Report records what the caller sees, whether the call reached the
 * target, and which throwables were caught and printed on the way.
 */
module Dispatch {
  import opened Runtime
  import opened Discovery

  /**
   * The return type of a Method, as far as a proxy cares: void, a reference
   * type, or a primitive type whose value the proxy class unboxes.
   */
  datatype ReturnKind = VoidReturn | ReferenceReturn | PrimitiveReturn

  /** A java.lang.reflect.Method: its identity and its return type. */
  datatype MethodRef = MethodRef(id: nat, kind: ReturnKind)

  /** One call through a proxy: the Method and the argument array. */
  datatype Call = Call(member: MethodRef, args: seq<Value>)

  /**
   * A non-null object behind a proxy: its identity, its runtime class, and
   * how Method.invoke on it returns or throws for each call.
   */
  datatype Subject = Subject(id: nat, cls: ClassId, respond: Call -> Outcome<Value>)

  /** The object reference a handler passes on: never null here. */
  function Reference(s: Subject): Value
  {
    Ref(s.id)
  }

  /** A ProxyHandler: how its onPreCalled(object, method, args) returns or throws. */
  datatype ProxyHandler = ProxyHandler(onPreCalled: (Value, Call) -> Outcome<bool>)

  /**
   * How a handler call ends: the value returned or the throwable that
   * escapes, whether Method.invoke was called on the target, and the
   * throwables caught and printed, in order.
   */
  datatype Report = Report(result: Outcome<Value>, forwarded: bool, caught: seq<Thrown>)

  /** ProxyInvocationHandler.onPreCalled: may the call go on, and what was caught deciding it. */
  datatype Decision = Decision(proceed: Outcome<bool>, caught: seq<Thrown>)

  // ---------------------------------------------------------------------
  // onPreCalled
  // ---------------------------------------------------------------------

  /**
   * ProxyInvocationHandler.onPreCalled: without a handler, or when the
   * handler throws an Exception, the call goes on (fail-open); otherwise the
   * handler's answer decides, and only an Error thrown by the handler
   * escapes.
   */
  function OnPreCalled(handler: Option<ProxyHandler>, target: Value, call: Call): (d: Decision)
    ensures d.proceed == Normal(false) <==>
      handler.Some? && handler.value.onPreCalled(target, call) == Normal(false)
    ensures d.proceed.Raised? <==>
      handler.Some? && handler.value.onPreCalled(target, call) == Raised(Error)
    ensures d.proceed.Raised? ==> d.proceed.thrown == Error
    ensures d.caught == if handler.Some? && handler.value.onPreCalled(target, call) == Raised(Exception) then [Exception] else []
  {
    match handler
    case None => Decision(Normal(true), [])
    case Some(hd) =>
      match hd.onPreCalled(target, call)
      case Normal(ok) => Decision(Normal(ok), [])
      case Raised(Exception) => Decision(Normal(true), [Exception])
      case Raised(Error) => Decision(Raised(Error), [])
  }

  /** ProxyHandlerImpl: onPreCalled always answers true. */
  function DefaultHandler(): (hd: ProxyHandler)
    ensures forall target, call :: hd.onPreCalled(target, call) == Normal(true)
  {
    ProxyHandler((target, call) => Normal(true))
  }

  /** Installing ProxyHandlerImpl decides exactly as installing no handler. */
  lemma DefaultHandlerIsNoHandler(target: Value, call: Call)
    ensures OnPreCalled(Some(DefaultHandler()), target, call) == OnPreCalled(None, target, call)
    ensures OnPreCalled(None, target, call) == Decision(Normal(true), [])
  {
  }

  /** A handler that throws an Exception lets the call go on, as no handler would. */
  lemma FailOpen(hd: ProxyHandler, target: Value, call: Call)
    requires hd.onPreCalled(target, call) == Raised(Exception)
    ensures OnPreCalled(Some(hd), target, call).proceed == OnPreCalled(None, target, call).proceed
  {
  }

  // ---------------------------------------------------------------------
  // ProxyInvocationHandler.invoke
  // ---------------------------------------------------------------------

  /** A ProxyInvocationHandler: it holds the object strongly, and an optional ProxyHandler. */
  datatype StrongHandler = StrongHandler(subject: Subject, handler: Option<ProxyHandler>)

  /**
   * What ProxyInvocationHandler.invoke does with a call. The object is
   * called exactly when onPreCalled answers true. A veto gives null. The
   * object's return value is passed back; an Exception from Method.invoke
   * is caught, printed and gives null. Method.invoke wraps whatever the
   * target method throws, Errors included, in InvocationTargetException,
   * so `respond` gives Raised(Error) only for an Error Method.invoke throws
   * itself (ExceptionInInitializerError, say). That Error, and an Error
   * thrown by the ProxyHandler, escape.
   */
  function StrongInvoke(sh: StrongHandler, call: Call): (r: Report)
    ensures var d := OnPreCalled(sh.handler, Reference(sh.subject), call);
      && (r.forwarded <==> d.proceed == Normal(true))
      && (d.proceed == Normal(false) ==> r.result == Normal(Null))
      && (d.proceed.Raised? ==> r.result == Raised(d.proceed.thrown))
      && (r.forwarded ==> match sh.subject.respond(call)
            case Normal(v) => r.result == Normal(v)
            case Raised(Exception) => r.result == Normal(Null)
            case Raised(Error) => r.result == Raised(Error))
      && (r.result.Raised? ==> r.result.thrown == Error)
      && r.caught == d.caught + (if r.forwarded && sh.subject.respond(call) == Raised(Exception) then [Exception] else [])
  {
    var d := OnPreCalled(sh.handler, Reference(sh.subject), call);
    match d.proceed
    case Raised(t) => Report(Raised(t), false, d.caught)
    case Normal(false) => Report(Normal(Null), false, d.caught)
    case Normal(true) =>
      match sh.subject.respond(call)
      case Normal(v) => Report(Normal(v), true, d.caught)
      case Raised(Exception) => Report(Normal(Null), true, d.caught + [Exception])
      case Raised(Error) => Report(Raised(Error), true, d.caught)
  }

  /** ProxyInvocationHandler.invoke as the source runs it, with its local `result`. */
  method Invoke(sh: StrongHandler, call: Call) returns (r: Report)
    ensures r == StrongInvoke(sh, call)
  {
    var result := Null;
    var forwarded := false;
    var d := OnPreCalled(sh.handler, Reference(sh.subject), call);
    var caught := d.caught;
    if d.proceed.Raised? {
      return Report(Raised(d.proceed.thrown), false, caught);
    }
    if d.proceed.value {
      forwarded := true;
      var answer := sh.subject.respond(call);
      match answer {
        case Normal(v) =>
          result := v;
        case Raised(Exception) =>
          caught := caught + [Exception];
        case Raised(Error) =>
          return Report(answer, true, caught);
      }
    }
    r := Report(Normal(result), forwarded, caught);
  }

  /** A veto short-circuits: the object is not called and the caller gets null. */
  lemma VetoShortCircuits(sh: StrongHandler, call: Call)
    requires sh.handler.Some? && sh.handler.value.onPreCalled(Reference(sh.subject), call) == Normal(false)
    ensures !StrongInvoke(sh, call).forwarded
    ensures StrongInvoke(sh, call) == Report(Normal(Null), false, [])
  {
  }

  /** Without a veto, a call whose object returns normally is transparent. */
  lemma ApprovedCallIsTransparent(sh: StrongHandler, call: Call, v: Value)
    requires OnPreCalled(sh.handler, Reference(sh.subject), call).proceed == Normal(true)
    requires sh.subject.respond(call) == Normal(v)
    ensures StrongInvoke(sh, call).forwarded && StrongInvoke(sh, call).result == Normal(v)
  {
  }

  // ---------------------------------------------------------------------
  // WeakProxyInvocationHandler.invoke
  // ---------------------------------------------------------------------

  /** A WeakProxyInvocationHandler: refSubject.get() is None once the object has been collected. */
  datatype WeakHandler = WeakHandler(referent: Option<Subject>)

  /**
   * WeakProxyInvocationHandler.invoke: a cleared reference gives null
   * without a call; a live one forwards, passes back the object's return
   * value, and turns every throwable into null. Nothing escapes.
   */
  function WeakInvoke(wh: WeakHandler, call: Call): (r: Report)
    ensures r.result.Normal?
    ensures r.forwarded <==> wh.referent.Some?
    ensures wh.referent.None? ==> r == Report(Normal(Null), false, [])
    ensures wh.referent.Some? ==> match wh.referent.value.respond(call)
      case Normal(v) => r.result == Normal(v) && r.caught == []
      case Raised(t) => r.result == Normal(Null) && r.caught == [t]
  {
    match wh.referent
    case None => Report(Normal(Null), false, [])
    case Some(s) =>
      match s.respond(call)
      case Normal(v) => Report(Normal(v), true, [])
      case Raised(t) => Report(Normal(Null), true, [t])
  }

  /** The environment clears the weak reference when it collects the object. */
  function Collected(wh: WeakHandler): (r: WeakHandler)
    ensures r.referent.None?
  {
    WeakHandler(None)
  }

  /** After collection every call through the weak handler is a no-op giving null. */
  lemma CollectedIsInert(wh: WeakHandler, call: Call)
    ensures !WeakInvoke(Collected(wh), call).forwarded
    ensures WeakInvoke(Collected(wh), call).result == Normal(Null)
  {
  }

  // ---------------------------------------------------------------------
  // ProxyBulk.safeInvoke
  // ---------------------------------------------------------------------

  /**
   * A ProxyBulk: a call captured for later, with its target object and its
   * Method either of which may be null.
   */
  datatype ProxyBulk = ProxyBulk(target: Option<Subject>, member: Option<MethodRef>, args: seq<Value>)

  /**
   * ProxyBulk.safeInvoke (instance method): method.invoke(target, args),
   * or null if anything is thrown; a null method, or a null target for an
   * instance method, throws NullPointerException, which is caught too.
   * Every Method here is an instance method: a ProxyBulk records a call made
   * through a proxy, and a proxy dispatches only interface instance methods.
   */
  function SafeInvoke(b: ProxyBulk): (r: Report)
    ensures r.result.Normal?
    ensures r.forwarded <==> b.target.Some? && b.member.Some?
    ensures !r.forwarded ==> r == Report(Normal(Null), false, [Exception])
    ensures r.forwarded ==> match b.target.value.respond(Call(b.member.value, b.args))
      case Normal(v) => r.result == Normal(v) && r.caught == []
      case Raised(t) => r.result == Normal(Null) && r.caught == [t]
  {
    if b.target.None? || b.member.None? then Report(Normal(Null), false, [Exception])
    else
      match b.target.value.respond(Call(b.member.value, b.args))
      case Normal(v) => Report(Normal(v), true, [])
      case Raised(t) => Report(Normal(Null), true, [t])
  }

  /** An arbitrary Java reference handed to the static safeInvoke. */
  datatype AnyObject = NullObject | Bulk(bulk: ProxyBulk) | Other(id: nat)

  /**
   * ProxyBulk.safeInvoke(Object): casts and delegates. The cast and the call
   * sit outside the try block, so a null argument (NullPointerException) or
   * a non-ProxyBulk argument (ClassCastException) throws to the caller.
   */
  function SafeInvokeObject(obj: AnyObject): (r: Report)
    ensures r.result.Raised? <==> !obj.Bulk?
    ensures r.result.Raised? ==> r == Report(Raised(Exception), false, [])
    ensures obj.Bulk? ==> r == SafeInvoke(obj.bulk)
  {
    match obj
    case Bulk(b) => SafeInvoke(b)
    case _ => Report(Raised(Exception), false, [])
  }

  // ---------------------------------------------------------------------
  // The three ways of calling compared
  // ---------------------------------------------------------------------

  /** A live weak handler behaves exactly as safeInvoke on the same call. */
  lemma WeakIsSafeInvoke(s: Subject, call: Call)
    ensures WeakInvoke(WeakHandler(Some(s)), call) == SafeInvoke(ProxyBulk(Some(s), Some(call.member), call.args))
  {
  }

  /**
   * Without a ProxyHandler the strong handler behaves as safeInvoke, except
   * when Method.invoke itself ends in an Error (not one the target method
   * throws, which arrives wrapped as an Exception): the strong handler lets
   * it escape, safeInvoke gives null.
   */
  lemma StrongIsSafeInvokeButErrors(s: Subject, call: Call)
    ensures var strong := StrongInvoke(StrongHandler(s, None), call);
      var safe := SafeInvoke(ProxyBulk(Some(s), Some(call.member), call.args));
      && (s.respond(call) != Raised(Error) ==> strong == safe)
      && (s.respond(call) == Raised(Error) ==> strong.result == Raised(Error) && safe.result == Normal(Null))
  {
  }
}
