# ProxyUtils (BluetoothKit) in Dafny

This project models `ProxyUtils`, the object-interception layer of the
BluetoothKit Android library, and proves properties of that model. The layer
does four things:

- It finds every interface a class implements (`getAllInterfaces`). The walk
  goes up the superclass chain, into the interfaces each class declares, and
  into the interfaces those extend. It uses a `LinkedHashSet` so each
  interface is kept once, in first-seen order.
- It builds proxies (`getProxy`, `getWeakProxy`). The proxy record holds the
  interfaces it binds and the handler that serves its calls.
- It serves calls in two ways:
  - `ProxyInvocationHandler` holds the object strongly and asks an optional
    `ProxyHandler` first (`onPreCalled`), which may veto the call.
  - `WeakProxyInvocationHandler` holds the object through a weak reference
    and forwards only while the object is alive.
- It replays captured calls without letting failures escape
  (`ProxyBulk.safeInvoke`).

The files:

- `runtime.dfy`: the Java vocabulary. A nullable reference is `Option`. A
  returned value is `Value`. A throwable is `Thrown`: `Exception` or `Error`.
  The way a call ends is `Outcome`.
- `discovery.dfy`: `getAllInterfaces`. The class hierarchy is a `Hierarchy`
  value with two maps:
  - `getSuperclass()` gives the superclass;
  - `getInterfaces()` gives the declared interfaces, in order.

  The file holds three mutually recursive functions, `Walk`, `Classes` and
  `Ifaces`, which mirror the `while` loop, the `for` loop and the recursion.
  The imperative version is the class `InterfaceSet` (the `LinkedHashSet`)
  and the recursive method `CollectInterfaces`, proved to compute `Walk`. The
  file also holds the proofs that the result has no duplicates and holds
  exactly the interfaces the class provides.
- `discovery_order.dfy`: the order of the discovered list. First, a class's
  own declarations, each followed at once by what it extends. Then what its
  superclass adds. A worked hierarchy ends the file.
- `dispatch.dfy`: `onPreCalled`, `ProxyHandlerImpl`, the two `invoke`
  methods, and both `safeInvoke` methods. A `Report` records three things:
  - the outcome the caller sees;
  - whether `Method.invoke` reached the object;
  - which throwables were caught and printed.
- `proxies.dfy`: the six factory overloads, calls on a proxy, and the
  collection of a weakly held object.

Facts about the code that a reader of the method names might not expect:

- `getWeakProxy(object)` binds only `object.getClass().getInterfaces()`,
  the class's own declared interfaces, not the list `getAllInterfaces` finds
  (`Proxies.WeakBindsFewer`, `Proxies.WeakProxyMissesInherited`).
- The `getProxy` overloads do not check for a null object. They call
  `object.getClass()` and throw `NullPointerException`. Only the
  `getWeakProxy` overloads return null.
- The strong handler catches only `Exception`, around the hook and around
  the forwarded call. `Method.invoke` wraps whatever the target method
  throws, `Error`s included, in `InvocationTargetException`, which is an
  `Exception`, so every failure of the target is caught. An `Error` escapes
  the strong handler only when the `ProxyHandler` throws it, or when
  `Method.invoke` throws it itself (`ExceptionInInitializerError`, say).
- The static `safeInvoke(Object)` casts and calls outside its `try` block. A
  null or non-`ProxyBulk` argument therefore throws to the caller.
- The handlers return null for a vetoed call, a collected object or a
  caught failure. On a method with a primitive return type the proxy class
  unboxes that null and throws `NullPointerException` at the caller
  (`Proxies.Deliver`, `Proxies.CallThrough`).

## Model

| member | source | states |
|---|---|---|
| Discovery.Chain | library/src/main/java/com/inuker/bluetooth/library/utils/ProxyUtils.java:96-105 | the classes the `while` loop visits: c, then each superclass, ending at a class without one |
| Discovery.ChainStep | library/src/main/java/com/inuker/bluetooth/library/utils/ProxyUtils.java:105 | one step of the loop: the chain of c is c followed by the chain of c's superclass, if any |
| Discovery.ClassesFirst | library/src/main/java/com/inuker/bluetooth/library/utils/ProxyUtils.java:96-103 | the first round of the `while` loop runs the `for` loop over c's own declarations |
| Discovery.Walk | library/src/main/java/com/inuker/bluetooth/library/utils/ProxyUtils.java:95-107 | the walk only appends (the found list is a prefix of the result) and never raises the count of interfaces still unseen |
| Discovery.Classes | library/src/main/java/com/inuker/bluetooth/library/utils/ProxyUtils.java:96-106 | the `while` loop over a list of classes only appends to the found list |
| Discovery.Ifaces | library/src/main/java/com/inuker/bluetooth/library/utils/ProxyUtils.java:99-103 | the `for` loop from position k only appends to the found list |
| Discovery.IfacesStep | library/src/main/java/com/inuker/bluetooth/library/utils/ProxyUtils.java:99-103 | one round of the `for` loop: an absent interface is appended and walked at once, a present one changes nothing, and afterwards the interface is in the list |
| Discovery.InterfaceSet.constructor | library/src/main/java/com/inuker/bluetooth/library/utils/ProxyUtils.java:89 | a new `LinkedHashSet` is empty |
| Discovery.InterfaceSet.Add | library/src/main/java/com/inuker/bluetooth/library/utils/ProxyUtils.java:100 | `add` returns true exactly when the element was absent, and then appends it at the end; otherwise the set is unchanged |
| Discovery.CollectInterfaces | library/src/main/java/com/inuker/bluetooth/library/utils/ProxyUtils.java:95-107 | the `while`/`for`/recursion procedure, run on a mutable set, leaves that set equal to the walk from its old contents |
| Discovery.GetAllInterfaces | library/src/main/java/com/inuker/bluetooth/library/utils/ProxyUtils.java:84-93 | null for a null class; otherwise a duplicate-free list holding exactly the interfaces the class provides, equal to the walk from an empty set |
| Discovery.AllInterfacesExact | library/src/main/java/com/inuker/bluetooth/library/utils/ProxyUtils.java:89-106 | the discovered list has no duplicates, and an interface is in it if and only if the class provides it (reachable by superclass links and declared/extends links) |
| Discovery.WalkNoDuplicates | library/src/main/java/com/inuker/bluetooth/library/utils/ProxyUtils.java:99-102 | since `add` appends only absent interfaces, walking from a duplicate-free list gives a duplicate-free list |
| Discovery.WalkSound | library/src/main/java/com/inuker/bluetooth/library/utils/ProxyUtils.java:95-107 | every interface the walk from c adds is one c provides |
| Discovery.WalkClosed | library/src/main/java/com/inuker/bluetooth/library/utils/ProxyUtils.java:95-107 | after walking c, every interface declared by c or a superclass of c is in the list, and closure of the list under "declares" is preserved |
| Discovery.IfacesHoldOwn | library/src/main/java/com/inuker/bluetooth/library/utils/ProxyUtils.java:99-103 | after the `for` loop, every interface it went over is in the list |
| DiscoveryOrder.OwnBeforeInherited | library/src/main/java/com/inuker/bluetooth/library/utils/ProxyUtils.java:96-105 | walking c first runs the `for` loop on c's own declarations, then walks c's superclass from that result |
| DiscoveryOrder.OwnBlockFirst | library/src/main/java/com/inuker/bluetooth/library/utils/ProxyUtils.java:97-103 | the block produced by c's own declarations is a prefix of the walk, and holds all of them |
| DiscoveryOrder.OwnBlockContributed | library/src/main/java/com/inuker/bluetooth/library/utils/ProxyUtils.java:99-103 | each interface added in that front block is one of c's declarations or is provided by one |
| DiscoveryOrder.InheritedAfter | library/src/main/java/com/inuker/bluetooth/library/utils/ProxyUtils.java:105 | each interface after the front block is provided by c's superclass |
| DiscoveryOrder.NewInterfaceBlock | library/src/main/java/com/inuker/bluetooth/library/utils/ProxyUtils.java:100-101 | an interface that `add` accepts takes the next position, and the whole walk from it precedes the later siblings |
| DiscoveryOrder.WalkCoversDeclared | library/src/main/java/com/inuker/bluetooth/library/utils/ProxyUtils.java:95-107 | after walking c, everything c or a superclass of c declares is in the list |
| DiscoveryOrder.WalkAddsProvided | library/src/main/java/com/inuker/bluetooth/library/utils/ProxyUtils.java:95-107 | everything walking c appends is provided by c |
| DiscoveryOrder.LaterSiblingsAfter | library/src/main/java/com/inuker/bluetooth/library/utils/ProxyUtils.java:99-103 | what the `for` loop adds after round k comes only from the declarations after position k |
| DiscoveryOrder.ShapeDiscovery | library/src/main/java/com/inuker/bluetooth/library/utils/ProxyUtils.java:95-107 | when C implements X and Y, X extends Z, and C's superclass B implements Y and W, discovery from C gives exactly [X, Z, Y, W] |
| DiscoveryOrder.SampleDiscovery | library/src/main/java/com/inuker/bluetooth/library/utils/ProxyUtils.java:84-93 | the worked hierarchy is acyclic and getAllInterfaces lists [X, Z, Y, W] for it |
| Dispatch.OnPreCalled | library/src/main/java/com/inuker/bluetooth/library/utils/ProxyUtils.java:149-158 | veto exactly when a handler answers false; an Error escapes exactly when the handler throws one; an Exception is caught and printed, and the call goes on |
| Dispatch.DefaultHandler | library/src/main/java/com/inuker/bluetooth/library/utils/ProxyUtils.java:113-118 | ProxyHandlerImpl answers true for every object and call |
| Dispatch.DefaultHandlerIsNoHandler | library/src/main/java/com/inuker/bluetooth/library/utils/ProxyUtils.java:116-118 | installing ProxyHandlerImpl decides exactly as installing no handler: proceed, nothing caught |
| Dispatch.FailOpen | library/src/main/java/com/inuker/bluetooth/library/utils/ProxyUtils.java:150-157 | a handler that throws an Exception lets the call proceed, as no handler would |
| Dispatch.StrongInvoke | library/src/main/java/com/inuker/bluetooth/library/utils/ProxyUtils.java:132-146 | the object is called exactly when onPreCalled answers true; a veto gives null; the object's value is passed back; an Exception from Method.invoke (any failure of the target, wrapped) gives null and is recorded as caught, after what onPreCalled caught; an Error from the ProxyHandler or thrown by Method.invoke itself escapes |
| Dispatch.Invoke | library/src/main/java/com/inuker/bluetooth/library/utils/ProxyUtils.java:132-146 | the step-by-step `invoke` with its local `result` computes exactly StrongInvoke |
| Dispatch.VetoShortCircuits | library/src/main/java/com/inuker/bluetooth/library/utils/ProxyUtils.java:137-145 | when the handler answers false, the object is not called and null is returned, with nothing caught |
| Dispatch.ApprovedCallIsTransparent | library/src/main/java/com/inuker/bluetooth/library/utils/ProxyUtils.java:137-145 | an approved call whose object returns v returns v |
| Dispatch.WeakInvoke | library/src/main/java/com/inuker/bluetooth/library/utils/ProxyUtils.java:170-183 | never throws; forwards exactly when the reference is live; a cleared reference gives null; the object's value is passed back; any throwable gives null and is printed |
| Dispatch.Collected | library/src/main/java/com/inuker/bluetooth/library/utils/ProxyUtils.java:163-166 | a collected object leaves the weak reference resolving to null |
| Dispatch.CollectedIsInert | library/src/main/java/com/inuker/bluetooth/library/utils/ProxyUtils.java:172-182 | after collection a weak-handler call reaches nothing and gives null |
| Dispatch.SafeInvoke | library/src/main/java/com/inuker/bluetooth/library/utils/ProxyUtils.java:69-77 | never throws; runs the captured instance-method call exactly when target and method are non-null; passes back its value, or null on any throwable, which it records |
| Dispatch.SafeInvokeObject | library/src/main/java/com/inuker/bluetooth/library/utils/ProxyUtils.java:79-81 | throws exactly when the argument is not a ProxyBulk (null or another class); otherwise it is the instance safeInvoke |
| Dispatch.WeakIsSafeInvoke | library/src/main/java/com/inuker/bluetooth/library/utils/ProxyUtils.java:170-183 | a live weak handler gives the same report as safeInvoke of the same call |
| Dispatch.StrongIsSafeInvokeButErrors | library/src/main/java/com/inuker/bluetooth/library/utils/ProxyUtils.java:135-145 | without a ProxyHandler, the strong handler equals safeInvoke unless Method.invoke itself ends in an Error, which escapes from one and gives null from the other |
| Proxies.GetProxyWithHandler | library/src/main/java/com/inuker/bluetooth/library/utils/ProxyUtils.java:39-44 | a null object throws an Exception (NullPointerException); otherwise the proxy binds the discovered interfaces (duplicate-free, exactly those provided) with an intercepting handler |
| Proxies.GetProxy | library/src/main/java/com/inuker/bluetooth/library/utils/ProxyUtils.java:17-19 | getProxy(object) is getProxy(object, null): the same binding, with no ProxyHandler |
| Proxies.GetProxyAs | library/src/main/java/com/inuker/bluetooth/library/utils/ProxyUtils.java:46-50 | a null object throws; otherwise the proxy binds just the given interface |
| Proxies.GetProxyAsAll | library/src/main/java/com/inuker/bluetooth/library/utils/ProxyUtils.java:52-56 | a null object throws; otherwise the proxy binds the given array as it is |
| Proxies.GetWeakProxy | library/src/main/java/com/inuker/bluetooth/library/utils/ProxyUtils.java:21-28 | null exactly for a null object; otherwise a weak proxy binding the class's own declared interfaces |
| Proxies.GetWeakProxyAs | library/src/main/java/com/inuker/bluetooth/library/utils/ProxyUtils.java:30-37 | null exactly for a null object; otherwise a weak proxy binding just the given interface |
| Proxies.CallThrough | library/src/main/java/com/inuker/bluetooth/library/utils/ProxyUtils.java:132-183 | a call on a proxy has the report of its handler's invoke, with the returned value converted to the method's return type; a weak proxy throws only for a null result of a primitive method, and a NullPointerException arises only that way |
| Proxies.Deliver | library/src/main/java/com/inuker/bluetooth/library/utils/ProxyUtils.java:145 | the proxy class drops a void method's value, passes a reference value on, and throws NullPointerException exactly for a null primitive result; a throwable from the handler passes through unchanged |
| Proxies.VetoedPrimitiveThrows | library/src/main/java/com/inuker/bluetooth/library/utils/ProxyUtils.java:137-145 | a vetoed call on a primitive method of a strong proxy reaches nothing and throws NullPointerException |
| Proxies.Collect | library/src/main/java/com/inuker/bluetooth/library/utils/ProxyUtils.java:161-167 | collection clears a weak proxy's reference and leaves a strong proxy and every binding unchanged |
| Proxies.WeakProxyOutlivesTarget | library/src/main/java/com/inuker/bluetooth/library/utils/ProxyUtils.java:170-183 | a weak proxy forwards while its object is alive; once the object is collected, a call reaches nothing and gives null, or throws NullPointerException on a primitive method |
| Proxies.WeakProxyCallIsSafeInvoke | library/src/main/java/com/inuker/bluetooth/library/utils/ProxyUtils.java:170-183 | a call on a live weak proxy forwards and catches as safeInvoke of the same call; on a reference method it gives the same value, on a primitive method it throws exactly when safeInvoke gives null |
| Proxies.WeakBindsFewer | library/src/main/java/com/inuker/bluetooth/library/utils/ProxyUtils.java:21-28 | every interface getWeakProxy binds is also bound by getProxy |
| Proxies.WeakProxyMissesInherited | library/src/main/java/com/inuker/bluetooth/library/utils/ProxyUtils.java:26 | on the worked hierarchy shape, the weak proxy binds [X, Y] while discovery gives [X, Z, Y, W] |

## Left out

- `Proxy.newProxyInstance`, class loaders and the generic casts are the JVM's runtime proxy generation. A proxy is the record of what that call receives: the interfaces and the handler. Its own checks are not modelled: non-interface classes, repeated interfaces, and a null `clazz` or array.
- `Method.invoke` is reflection. Each object holds a `respond` function that gives what `Method.invoke` returns or throws for a call. The wrapping of the target's throwable into `InvocationTargetException` is folded into that function: a failure of the target is `Raised(Exception)`, and `Raised(Error)` is an `Error` that `Method.invoke` throws itself.
- Dispatch.SafeInvoke: every captured `Method` is an instance method, since a `ProxyBulk` records a call made through a proxy and a proxy dispatches only interface instance methods. A static `Method` with a null object, which `Method.invoke` would run, is not modelled.
- Values carry no type, so the proxy class's `ClassCastException` for a returned value of the wrong type is not modelled; a Method's return type is only void, reference or primitive (`Dispatch.ReturnKind`).
- Garbage collection is not modelled, in reachability or in timing. The weak reference is an `Option` that the environment may clear between calls (`Dispatch.Collected`, `Proxies.Collect`).
- Logging through `BluetoothLog.e` and `printStackTrace` is I/O. The model keeps only the list of caught throwables, in a report's `caught` field.
- Concurrent calls on a proxy have no synchronization in the source and are not modelled.
- Class identity is a number (`ClassId`), and `LinkedHashSet` membership is equality on it.
- Every class hierarchy is assumed acyclic (`Discovery.Acyclic`), as the JVM guarantees. The superclass walk needs this to end.
- `getAllInterfaces` copies the set into a new `ArrayList`. In the model the result is the set's sequence value.
- The two handler classes and `ProxyBulk` only set their fields in constructors. They are datatypes, so no constructor is modelled.
- `ProxyInvocationHandler` also implements `ProxyHandler`, through its own `onPreCalled`. That method is `Dispatch.OnPreCalled`; its use outside `invoke` is not modelled.
