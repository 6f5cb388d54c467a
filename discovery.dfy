/**
 * Interface discovery (ProxyUtils.getAllInterfaces): the ordered,
 * duplicate-free list of every interface a class implements, directly,
 * through its superclasses, or through interfaces that extend others.
 *
 * The JVM's reflection is replaced by a Hierarchy value: getSuperclass()
 * and getInterfaces() become two finite maps.
 */
module Discovery {
  import opened Runtime

  /** The identity of a java.lang.Class object. */
  type ClassId = nat

  /**
   * A type hierarchy. `superclass[c]` is c.getSuperclass() (absent: null);
   * `interfaces[c]` is c.getInterfaces() in declaration order (absent: the
   * empty array). For an interface, getInterfaces() lists the interfaces
   * it extends.
   */
  datatype Hierarchy = Hierarchy(superclass: map<ClassId, ClassId>, interfaces: map<ClassId, seq<ClassId>>)

  function Superclass(h: Hierarchy, c: ClassId): Option<ClassId>
  {
    if c in h.superclass then Some(h.superclass[c]) else None
  }

  function Interfaces(h: Hierarchy, c: ClassId): seq<ClassId>
  {
    if c in h.interfaces then h.interfaces[c] else []
  }

  // ---------------------------------------------------------------------
  // The superclass chain
  // ---------------------------------------------------------------------

  /** The links c, c.getSuperclass(), ... up to a class without one, if that takes at most `fuel` steps. */
  function ChainWithin(h: Hierarchy, c: ClassId, fuel: nat): (r: Option<seq<ClassId>>)
    ensures r.Some? ==> IsSuperclassChain(h, c, r.value)
    decreases fuel
  {
    if c !in h.superclass then Some([c])
    else if fuel == 0 then None
    else match ChainWithin(h, h.superclass[c], fuel - 1)
      case None => None
      case Some(s) => Some([c] + s)
  }

  /** `s` is the walk from c along superclass links, ending at a class that has no superclass. */
  ghost predicate IsSuperclassChain(h: Hierarchy, c: ClassId, s: seq<ClassId>)
  {
    && |s| >= 1
    && s[0] == c
    && Superclass(h, s[|s| - 1]).None?
    && forall j :: 0 <= j < |s| - 1 ==> Superclass(h, s[j]) == Some(s[j + 1])
  }

  /**
   * Java class hierarchies are acyclic: the superclass walk from every class
   * ends. Each step visits a distinct class with a superclass, so it ends
   * within |superclass| steps.
   */
  ghost predicate Acyclic(h: Hierarchy)
  {
    forall c :: ChainWithin(h, c, |h.superclass|).Some?
  }

  /** The classes the `while (cls != null)` loop visits, most-derived first. */
  function Chain(h: Hierarchy, c: ClassId): (r: seq<ClassId>)
    requires Acyclic(h)
    ensures IsSuperclassChain(h, c, r)
  {
    ChainWithin(h, c, |h.superclass|).value
  }

  /** The `while` loop's first round handles the class itself. */
  lemma ClassesFirst(h: Hierarchy, c: ClassId, found: seq<ClassId>)
    requires Acyclic(h)
    ensures Classes(h, Chain(h, c), found) == Classes(h, Chain(h, c)[1..], Ifaces(h, c, 0, found))
  {
  }

  /** More fuel than needed does not change the chain. */
  lemma {:induction false} ChainFuel(h: Hierarchy, c: ClassId, n: nat, m: nat)
    requires ChainWithin(h, c, n).Some? && n <= m
    ensures ChainWithin(h, c, m) == ChainWithin(h, c, n)
    decreases n
  {
    if c in h.superclass {
      ChainFuel(h, h.superclass[c], n - 1, m - 1);
    }
  }

  /** One step of the superclass walk. */
  lemma ChainStep(h: Hierarchy, c: ClassId)
    requires Acyclic(h)
    ensures Chain(h, c) == [c] + (match Superclass(h, c) case None => [] case Some(s) => Chain(h, s))
  {
    if c in h.superclass {
      var n := |h.superclass|;
      assert ChainWithin(h, c, n).Some?;
      ChainFuel(h, h.superclass[c], n - 1, n);
    }
  }

  // ---------------------------------------------------------------------
  // The termination measure: interfaces not yet found
  // ---------------------------------------------------------------------

  /** Every class that appears in some getInterfaces() array. */
  ghost function Mentioned(h: Hierarchy): set<ClassId>
  {
    set c, t | c in h.interfaces && t in h.interfaces[c] :: t
  }

  ghost function Elems(s: seq<ClassId>): set<ClassId>
  {
    set x | x in s
  }

  /** How many interfaces could still be added to the found set. */
  ghost function Unseen(h: Hierarchy, found: seq<ClassId>): nat
  {
    |Mentioned(h) - Elems(found)|
  }

  /** Adding an interface that was not yet found brings the measure down. */
  lemma UnseenShrinks(h: Hierarchy, found: seq<ClassId>, d: ClassId, k: nat)
    requires k < |Interfaces(h, d)| && Interfaces(h, d)[k] !in found
    ensures Unseen(h, found + [Interfaces(h, d)[k]]) < Unseen(h, found)
  {
    var i := Interfaces(h, d)[k];
    assert d in h.interfaces && i in h.interfaces[d];
    assert i in Mentioned(h);
    var rest := Mentioned(h) - Elems(found);
    assert i in rest;
    assert Mentioned(h) - Elems(found + [i]) == rest - {i};
    assert rest == (rest - {i}) + {i};
  }

  ghost predicate NoDuplicates(s: seq<ClassId>)
  {
    forall a, b :: 0 <= a < b < |s| ==> s[a] != s[b]
  }

  // ---------------------------------------------------------------------
  // The discovery procedure, as functions
  // ---------------------------------------------------------------------

  /**
   * getAllInterfaces(cls, interfacesFound): the found list after walking
   * the superclass chain of c. Elements already found keep their place and
   * new ones are appended, as in a LinkedHashSet.
   */
  function Walk(h: Hierarchy, c: ClassId, found: seq<ClassId>): (r: seq<ClassId>)
    requires Acyclic(h)
    ensures found <= r
    ensures Unseen(h, r) <= Unseen(h, found)
    decreases Unseen(h, found), 2, 0
  {
    Classes(h, Chain(h, c), found)
  }

  /** The `while` loop: the interfaces of each class of `cs` in turn. */
  function Classes(h: Hierarchy, cs: seq<ClassId>, found: seq<ClassId>): (r: seq<ClassId>)
    requires Acyclic(h)
    ensures found <= r
    ensures Unseen(h, r) <= Unseen(h, found)
    decreases Unseen(h, found), 1, |cs|
  {
    if cs == [] then found
    else Classes(h, cs[1..], Ifaces(h, cs[0], 0, found))
  }

  /**
   * The `for` loop over d.getInterfaces() from position k: an interface
   * that `add` accepts is appended and then walked at once.
   */
  function Ifaces(h: Hierarchy, d: ClassId, k: nat, found: seq<ClassId>): (r: seq<ClassId>)
    requires Acyclic(h) && k <= |Interfaces(h, d)|
    ensures found <= r
    ensures Unseen(h, r) <= Unseen(h, found)
    decreases Unseen(h, found), 0, |Interfaces(h, d)| - k
  {
    if k == |Interfaces(h, d)| then found
    else
      var i := Interfaces(h, d)[k];
      var next := if i in found then found else (UnseenShrinks(h, found, d, k); Walk(h, i, found + [i]));
      Ifaces(h, d, k + 1, next)
  }

  /** getAllInterfaces(cls) for a non-null class: the walk from an empty set. */
  function AllInterfaces(h: Hierarchy, c: ClassId): seq<ClassId>
    requires Acyclic(h)
  {
    Walk(h, c, [])
  }

  // ---------------------------------------------------------------------
  // The discovery procedure, as the source runs it
  // ---------------------------------------------------------------------

  /** The LinkedHashSet `interfacesFound`: a set that remembers insertion order. */
  class InterfaceSet {
    var elems: seq<ClassId>

    constructor ()
      ensures elems == []
    {
      elems := [];
    }

    /** LinkedHashSet.add: true, and appended at the end, exactly when x was absent. */
    method Add(x: ClassId) returns (added: bool)
      modifies this
      ensures added == (x !in old(elems))
      ensures elems == if added then old(elems) + [x] else old(elems)
    {
      added := x !in elems;
      if added {
        elems := elems + [x];
      }
    }
  }

  /** getAllInterfaces(Class, HashSet): walks cls's superclass chain, adding to `found`. */
  method CollectInterfaces(h: Hierarchy, cls: ClassId, found: InterfaceSet)
    requires Acyclic(h)
    modifies found
    ensures found.elems == Walk(h, cls, old(found.elems))
    decreases Unseen(h, found.elems), 2
  {
    ghost var start := found.elems;
    var cur := Some(cls);
    while cur.Some?
      invariant start <= found.elems && Unseen(h, found.elems) <= Unseen(h, start)
      invariant Walk(h, cls, start) == if cur.Some? then Classes(h, Chain(h, cur.value), found.elems) else found.elems
      decreases if cur.Some? then |Chain(h, cur.value)| else 0
    {
      var c := cur.value;
      ChainStep(h, c);
      ClassesFirst(h, c, found.elems);
      ghost var round := found.elems;
      var interfaces := Interfaces(h, c);
      for k := 0 to |interfaces|
        invariant round <= found.elems && Unseen(h, found.elems) <= Unseen(h, round)
        invariant Ifaces(h, c, 0, round) == Ifaces(h, c, k, found.elems)
      {
        var i := interfaces[k];
        ghost var before := found.elems;
        ghost var next := IfacesStep(h, c, k, before);
        var added := found.Add(i);
        if added {
          UnseenShrinks(h, before, c, k);
          assert Unseen(h, found.elems) < Unseen(h, start);
          CollectInterfaces(h, i, found);
        }
        assert found.elems == next;
      }
      cur := Superclass(h, c);
    }
  }

  /**
   * getAllInterfaces(cls): null for a null class; otherwise a fresh list of
   * every interface cls implements, each once, in first-seen order.
   */
  method GetAllInterfaces(h: Hierarchy, cls: Option<ClassId>) returns (r: Option<seq<ClassId>>)
    requires Acyclic(h)
    ensures cls.None? <==> r.None?
    ensures cls.Some? ==> r.value == AllInterfaces(h, cls.value)
    ensures cls.Some? ==> NoDuplicates(r.value) && forall t :: t in r.value <==> Provides(h, cls.value, t)
  {
    if cls.None? {
      return None;
    }
    var found := new InterfaceSet();
    CollectInterfaces(h, cls.value, found);
    AllInterfacesExact(h, cls.value);
    r := Some(found.elems);
  }

  // ---------------------------------------------------------------------
  // Each interface is listed once
  // ---------------------------------------------------------------------

  /** `add` appends only absent interfaces, so a duplicate-free list stays duplicate-free. */
  lemma {:induction false} WalkNoDuplicates(h: Hierarchy, c: ClassId, found: seq<ClassId>)
    requires Acyclic(h) && NoDuplicates(found)
    ensures NoDuplicates(Walk(h, c, found))
    decreases Unseen(h, found), 2, 0
  {
    ClassesNoDuplicates(h, Chain(h, c), found);
  }

  lemma {:induction false} ClassesNoDuplicates(h: Hierarchy, cs: seq<ClassId>, found: seq<ClassId>)
    requires Acyclic(h) && NoDuplicates(found)
    ensures NoDuplicates(Classes(h, cs, found))
    decreases Unseen(h, found), 1, |cs|
  {
    if cs != [] {
      IfacesNoDuplicates(h, cs[0], 0, found);
      ClassesNoDuplicates(h, cs[1..], Ifaces(h, cs[0], 0, found));
    }
  }

  lemma {:induction false} IfacesNoDuplicates(h: Hierarchy, d: ClassId, k: nat, found: seq<ClassId>)
    requires Acyclic(h) && k <= |Interfaces(h, d)| && NoDuplicates(found)
    ensures NoDuplicates(Ifaces(h, d, k, found))
    decreases Unseen(h, found), 0, |Interfaces(h, d)| - k
  {
    if k < |Interfaces(h, d)| {
      var i := Interfaces(h, d)[k];
      var next := IfacesStep(h, d, k, found);
      if i !in found {
        UnseenShrinks(h, found, d, k);
        AppendAbsent(found, i);
        WalkNoDuplicates(h, i, found + [i]);
      }
      IfacesNoDuplicates(h, d, k + 1, next);
    }
  }

  lemma AppendAbsent(s: seq<ClassId>, x: ClassId)
    requires NoDuplicates(s) && x !in s
    ensures NoDuplicates(s + [x])
  {
  }

  // ---------------------------------------------------------------------
  // What a class implements
  // ---------------------------------------------------------------------

  /** The interfaces declared by x or by one of its superclasses. */
  ghost function Succ(h: Hierarchy, x: ClassId): set<ClassId>
    requires Acyclic(h)
  {
    set d, t | d in Chain(h, x) && t in Interfaces(h, d) :: t
  }

  /** Each element of p is declared by the previous one or by one of its superclasses. */
  ghost predicate InheritancePath(h: Hierarchy, p: seq<ClassId>)
    requires Acyclic(h)
  {
    forall j :: 0 <= j < |p| - 1 ==> p[j + 1] in Succ(h, p[j])
  }

  /**
   * c implements t: t is reached from c by following superclass links and
   * declared-interface (extends) links, ending with a declared-interface link.
   */
  ghost predicate Provides(h: Hierarchy, c: ClassId, t: ClassId)
    requires Acyclic(h)
  {
    exists p :: |p| >= 2 && p[0] == c && p[|p| - 1] == t && InheritancePath(h, p)
  }

  /** An interface that a class provides is implied by any interface above it. */
  lemma ProvidesStep(h: Hierarchy, c: ClassId, i: ClassId, x: ClassId)
    requires Acyclic(h) && i in Succ(h, c)
    ensures Provides(h, c, i)
    ensures Provides(h, i, x) ==> Provides(h, c, x)
  {
    assert InheritancePath(h, [c, i]);
    if Provides(h, i, x) {
      var p :| |p| >= 2 && p[0] == i && p[|p| - 1] == x && InheritancePath(h, p);
      var q := [c] + p;
      forall j | 0 <= j < |q| - 1
        ensures q[j + 1] in Succ(h, q[j])
      {
        if j > 0 {
          assert q[j + 1] == p[j] && q[j] == p[j - 1];
        }
      }
      assert InheritancePath(h, q);
    }
  }

  /** Interfaces declared along cs, all on c's chain, are provided by c. */
  ghost predicate OnChainOf(h: Hierarchy, c: ClassId, cs: seq<ClassId>)
    requires Acyclic(h)
  {
    forall d, t :: d in cs && t in Interfaces(h, d) ==> t in Succ(h, c)
  }

  /** x is one of the interfaces `ifaces`, or is provided by one of them. */
  ghost predicate Contributed(h: Hierarchy, ifaces: seq<ClassId>, x: ClassId)
    requires Acyclic(h)
  {
    exists n :: 0 <= n < |ifaces| && (ifaces[n] == x || Provides(h, ifaces[n], x))
  }

  // ---------------------------------------------------------------------
  // Soundness: only provided interfaces are added
  // ---------------------------------------------------------------------

  lemma {:induction false} WalkSound(h: Hierarchy, c: ClassId, found: seq<ClassId>)
    requires Acyclic(h)
    ensures forall x {:trigger x in Walk(h, c, found)} :: x in Walk(h, c, found) && x !in found ==> Provides(h, c, x)
    decreases Unseen(h, found), 2, 0
  {
    ClassesSound(h, c, Chain(h, c), found);
  }

  lemma {:induction false} ClassesSound(h: Hierarchy, c: ClassId, cs: seq<ClassId>, found: seq<ClassId>)
    requires Acyclic(h) && OnChainOf(h, c, cs)
    ensures forall x {:trigger x in Classes(h, cs, found)} :: x in Classes(h, cs, found) && x !in found ==> Provides(h, c, x)
    decreases Unseen(h, found), 1, |cs|
  {
    if cs != [] {
      var next := Ifaces(h, cs[0], 0, found);
      IfacesSound(h, cs[0], 0, found);
      assert OnChainOf(h, c, cs[1..]) by {
        forall d, t | d in cs[1..] && t in Interfaces(h, d) ensures t in Succ(h, c) {
          assert d in cs;
        }
      }
      ClassesSound(h, c, cs[1..], next);
      forall x | x in Classes(h, cs, found) && x !in found
        ensures Provides(h, c, x)
      {
        if x in next {
          var ifs := Interfaces(h, cs[0])[0..];
          var n :| 0 <= n < |ifs| && (ifs[n] == x || Provides(h, ifs[n], x));
          var i := ifs[n];
          assert cs[0] in cs && i in Interfaces(h, cs[0]);
          assert i in Succ(h, c);
          ProvidesStep(h, c, i, x);
        } else {
          assert x in Classes(h, cs[1..], next);
        }
      }
    }
  }

  lemma {:induction false} IfacesSound(h: Hierarchy, d: ClassId, k: nat, found: seq<ClassId>)
    requires Acyclic(h) && k <= |Interfaces(h, d)|
    ensures forall x {:trigger x in Ifaces(h, d, k, found)} :: x in Ifaces(h, d, k, found) && x !in found ==> Contributed(h, Interfaces(h, d)[k..], x)
    decreases Unseen(h, found), 0, |Interfaces(h, d)| - k
  {
    var ifs := Interfaces(h, d);
    if k < |ifs| {
      var i := ifs[k];
      var next := IfacesStep(h, d, k, found);
      if i !in found {
        UnseenShrinks(h, found, d, k);
        WalkSound(h, i, found + [i]);
      }
      IfacesSound(h, d, k + 1, next);
      SoundStep(h, ifs, k, found, next, Ifaces(h, d, k + 1, next));
    }
  }

  /** One round of the `for` loop adds only interfaces contributed by the declarations from k on. */
  lemma SoundStep(h: Hierarchy, ifs: seq<ClassId>, k: nat, found: seq<ClassId>, next: seq<ClassId>, r: seq<ClassId>)
    requires Acyclic(h) && k < |ifs| && found <= next <= r
    requires forall x :: x in next && x !in found + [ifs[k]] ==> Provides(h, ifs[k], x)
    requires forall x :: x in r && x !in next ==> Contributed(h, ifs[k + 1..], x)
    ensures forall x :: x in r && x !in found ==> Contributed(h, ifs[k..], x)
  {
    forall x | x in r && x !in found ensures Contributed(h, ifs[k..], x) {
      if x in next {
        assert ifs[k..][0] == ifs[k];
        assert x == ifs[k] || x !in found + [ifs[k]];
      } else {
        ContributedWiden(h, ifs, k, x);
      }
    }
  }

  lemma ContributedWiden(h: Hierarchy, ifs: seq<ClassId>, k: nat, x: ClassId)
    requires Acyclic(h) && k < |ifs| && Contributed(h, ifs[k + 1..], x)
    ensures Contributed(h, ifs[k..], x)
  {
    var n :| 0 <= n < |ifs[k + 1..]| && (ifs[k + 1..][n] == x || Provides(h, ifs[k + 1..][n], x));
    assert ifs[k..][n + 1] == ifs[k + 1..][n];
  }

  /** One iteration of the `for` loop: what `add` and the recursive walk leave in the found list. */
  lemma IfacesStep(h: Hierarchy, d: ClassId, k: nat, found: seq<ClassId>) returns (next: seq<ClassId>)
    requires Acyclic(h) && k < |Interfaces(h, d)|
    ensures var i := Interfaces(h, d)[k];
      && next == (if i in found then found else Walk(h, i, found + [i]))
      && i in next
      && Ifaces(h, d, k, found) == Ifaces(h, d, k + 1, next)
  {
    var i := Interfaces(h, d)[k];
    if i in found {
      next := found;
    } else {
      UnseenShrinks(h, found, d, k);
      next := Walk(h, i, found + [i]);
      assert (found + [i])[|found|] == i;
    }
  }

  // ---------------------------------------------------------------------
  // Completeness: the result is closed under "provides"
  // ---------------------------------------------------------------------

  /** Every interface x declares, or one of its superclasses declares, is in r. */
  ghost predicate Covers(h: Hierarchy, r: seq<ClassId>, x: ClassId)
    requires Acyclic(h)
  {
    forall t :: t in Succ(h, x) ==> t in r
  }

  /** Every element of s is in r. */
  ghost predicate AllIn(s: seq<ClassId>, r: seq<ClassId>)
  {
    forall t :: t in s ==> t in r
  }

  /** Every element of r outside `pending` has all of its direct interfaces in r. */
  ghost predicate Closed(h: Hierarchy, r: seq<ClassId>, pending: set<ClassId>)
    requires Acyclic(h)
  {
    forall x :: x in r && x !in pending ==> Covers(h, r, x)
  }

  lemma {:induction false} WalkClosed(h: Hierarchy, c: ClassId, found: seq<ClassId>, pending: set<ClassId>)
    requires Acyclic(h) && Closed(h, found, pending)
    ensures Closed(h, Walk(h, c, found), pending)
    ensures Covers(h, Walk(h, c, found), c)
    decreases Unseen(h, found), 2, 0
  {
    var r := Walk(h, c, found);
    ClassesClosed(h, Chain(h, c), found, pending);
    forall t | t in Succ(h, c) ensures t in r {
      var d :| d in Chain(h, c) && t in Interfaces(h, d);
      assert AllIn(Interfaces(h, d), r);
    }
  }

  lemma {:induction false} ClassesClosed(h: Hierarchy, cs: seq<ClassId>, found: seq<ClassId>, pending: set<ClassId>)
    requires Acyclic(h) && Closed(h, found, pending)
    ensures Closed(h, Classes(h, cs, found), pending)
    ensures forall d :: d in cs ==> AllIn(Interfaces(h, d), Classes(h, cs, found))
    decreases Unseen(h, found), 1, |cs|
  {
    if cs != [] {
      var next := Ifaces(h, cs[0], 0, found);
      IfacesClosed(h, cs[0], 0, found, pending);
      IfacesHoldOwn(h, cs[0], 0, found);
      ClassesClosed(h, cs[1..], next, pending);
      var r := Classes(h, cs, found);
      assert Interfaces(h, cs[0])[0..] == Interfaces(h, cs[0]);
      AllInGrows(Interfaces(h, cs[0]), next, r);
      forall d | d in cs ensures AllIn(Interfaces(h, d), r) {
        if d != cs[0] {
          assert d in cs[1..];
        }
      }
    }
  }

  lemma {:induction false} IfacesClosed(h: Hierarchy, d: ClassId, k: nat, found: seq<ClassId>, pending: set<ClassId>)
    requires Acyclic(h) && k <= |Interfaces(h, d)| && Closed(h, found, pending)
    ensures Closed(h, Ifaces(h, d, k, found), pending)
    decreases Unseen(h, found), 0, |Interfaces(h, d)| - k
  {
    if k < |Interfaces(h, d)| {
      var i := Interfaces(h, d)[k];
      var next := IfacesStep(h, d, k, found);
      if i !in found {
        UnseenShrinks(h, found, d, k);
        ClosedAdd(h, found, pending, i);
        WalkClosed(h, i, found + [i], pending + {i});
        ClosedRelease(h, next, pending, i);
      }
      IfacesClosed(h, d, k + 1, next, pending);
    }
  }

  /** The `for` loop leaves every interface it iterates over in the list. */
  lemma {:induction false} IfacesHoldOwn(h: Hierarchy, d: ClassId, k: nat, found: seq<ClassId>)
    requires Acyclic(h) && k <= |Interfaces(h, d)|
    ensures AllIn(Interfaces(h, d)[k..], Ifaces(h, d, k, found))
    decreases |Interfaces(h, d)| - k
  {
    if k < |Interfaces(h, d)| {
      var next := IfacesStep(h, d, k, found);
      IfacesHoldOwn(h, d, k + 1, next);
      var r := Ifaces(h, d, k + 1, next);
      PrefixHolds(next, r, Interfaces(h, d)[k]);
      AllInCons(Interfaces(h, d), k, r);
    }
  }

  /** What a list holds, every list extending it holds. */
  lemma PrefixHolds(s: seq<ClassId>, r: seq<ClassId>, x: ClassId)
    requires s <= r && x in s
    ensures x in r
  {
    var j :| 0 <= j < |s| && s[j] == x;
    assert r[j] == x;
  }

  lemma AllInCons(s: seq<ClassId>, k: nat, r: seq<ClassId>)
    requires k < |s| && s[k] in r && AllIn(s[k + 1..], r)
    ensures AllIn(s[k..], r)
  {
    assert s[k..] == [s[k]] + s[k + 1..];
  }

  lemma AllInGrows(s: seq<ClassId>, r: seq<ClassId>, r': seq<ClassId>)
    requires AllIn(s, r) && r <= r'
    ensures AllIn(s, r')
  {
    forall t | t in s ensures t in r' {
      PrefixHolds(r, r', t);
    }
  }

  /** Appending a not-yet-walked interface keeps the list closed while it is still pending. */
  lemma ClosedAdd(h: Hierarchy, found: seq<ClassId>, pending: set<ClassId>, i: ClassId)
    requires Acyclic(h) && Closed(h, found, pending)
    ensures Closed(h, found + [i], pending + {i})
  {
    forall x | x in found + [i] && x !in pending + {i} ensures Covers(h, found + [i], x) {
      assert Covers(h, found, x);
    }
  }

  /** Once every direct interface of i is in the list, i need no longer be pending. */
  lemma ClosedRelease(h: Hierarchy, r: seq<ClassId>, pending: set<ClassId>, i: ClassId)
    requires Acyclic(h) && Closed(h, r, pending + {i}) && Covers(h, r, i)
    ensures Closed(h, r, pending)
  {
    forall x | x in r && x !in pending ensures Covers(h, r, x) {
      if x != i {
        assert x !in pending + {i};
      }
    }
  }

  /** A closed list that holds c's direct interfaces holds everything c provides. */
  lemma ClosedHoldsProvided(h: Hierarchy, r: seq<ClassId>, c: ClassId, t: ClassId)
    requires Acyclic(h) && Closed(h, r, {}) && Covers(h, r, c) && Provides(h, c, t)
    ensures t in r
  {
    var p :| |p| >= 2 && p[0] == c && p[|p| - 1] == t && InheritancePath(h, p);
    var j := 1;
    while j < |p| - 1
      invariant 1 <= j <= |p| - 1
      invariant p[j] in r
    {
      assert p[j + 1] in Succ(h, p[j]) && Covers(h, r, p[j]);
      j := j + 1;
    }
  }

  // ---------------------------------------------------------------------
  // The results about getAllInterfaces
  // ---------------------------------------------------------------------

  /**
   * The discovered list holds each interface once, and holds exactly the
   * interfaces the class provides.
   */
  lemma AllInterfacesExact(h: Hierarchy, c: ClassId)
    requires Acyclic(h)
    ensures NoDuplicates(AllInterfaces(h, c))
    ensures forall t :: t in AllInterfaces(h, c) <==> Provides(h, c, t)
  {
    var r := AllInterfaces(h, c);
    WalkNoDuplicates(h, c, []);
    WalkSound(h, c, []);
    WalkClosed(h, c, [], {});
    forall t | Provides(h, c, t) ensures t in r {
      ClosedHoldsProvided(h, r, c, t);
    }
  }
}
