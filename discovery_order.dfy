/**
 * The order in which getAllInterfaces lists interfaces. The walk is a
 * depth-first pre-order: a class's own declarations, each followed at once
 * by what it extends, come before what its superclass contributes, and an
 * interface already found keeps its first position.
 */
module DiscoveryOrder {
  import opened Runtime
  import opened Discovery

  // ---------------------------------------------------------------------
  // A class before its superclass
  // ---------------------------------------------------------------------

  /** The walk from c first runs the `for` loop over c's own declarations, then walks c's superclass. */
  lemma OwnBeforeInherited(h: Hierarchy, c: ClassId, found: seq<ClassId>)
    requires Acyclic(h)
    ensures Walk(h, c, found) ==
      match Superclass(h, c)
      case None => Ifaces(h, c, 0, found)
      case Some(s) => Walk(h, s, Ifaces(h, c, 0, found))
  {
    ChainStep(h, c);
    ClassesFirst(h, c, found);
    if Superclass(h, c).Some? {
      assert Chain(h, c)[1..] == Chain(h, Superclass(h, c).value);
    } else {
      assert Chain(h, c)[1..] == [];
    }
  }

  /** The front of the walk is the block for c's own declarations, and it holds all of them. */
  lemma OwnBlockFirst(h: Hierarchy, c: ClassId, found: seq<ClassId>)
    requires Acyclic(h)
    ensures Ifaces(h, c, 0, found) <= Walk(h, c, found)
    ensures forall t :: t in Interfaces(h, c) ==> t in Ifaces(h, c, 0, found)
  {
    OwnBeforeInherited(h, c, found);
    IfacesHoldOwn(h, c, 0, found);
    assert Interfaces(h, c)[0..] == Interfaces(h, c);
  }

  /** Every interface added in that front block is one of c's declarations or provided by one. */
  lemma OwnBlockContributed(h: Hierarchy, c: ClassId, found: seq<ClassId>)
    requires Acyclic(h) && NoDuplicates(found)
    ensures forall j :: |found| <= j < |Ifaces(h, c, 0, found)| ==>
      Contributed(h, Interfaces(h, c), Ifaces(h, c, 0, found)[j])
  {
    var own := Ifaces(h, c, 0, found);
    IfacesNoDuplicates(h, c, 0, found);
    IfacesSound(h, c, 0, found);
    AppendedAreNew(found, own);
    assert Interfaces(h, c)[0..] == Interfaces(h, c);
    forall j | |found| <= j < |own| ensures Contributed(h, Interfaces(h, c), own[j]) {
      assert own[j] in own && own[j] !in found;
    }
  }

  /** Everything the walk adds after that front block is provided by c's superclass. */
  lemma InheritedAfter(h: Hierarchy, c: ClassId, found: seq<ClassId>)
    requires Acyclic(h) && NoDuplicates(found)
    ensures forall j :: |Ifaces(h, c, 0, found)| <= j < |Walk(h, c, found)| ==>
      Superclass(h, c).Some? && Provides(h, Superclass(h, c).value, Walk(h, c, found)[j])
  {
    var own := Ifaces(h, c, 0, found);
    var r := Walk(h, c, found);
    OwnBeforeInherited(h, c, found);
    if Superclass(h, c).Some? {
      var s := Superclass(h, c).value;
      IfacesNoDuplicates(h, c, 0, found);
      WalkNoDuplicates(h, s, own);
      WalkSound(h, s, own);
      AppendedAreNew(own, r);
      forall j | |own| <= j < |r| ensures Provides(h, s, r[j]) {
        assert r[j] in Walk(h, s, own) && r[j] !in own;
      }
    }
  }

  /** In a duplicate-free list, what follows a prefix is absent from that prefix. */
  lemma AppendedAreNew(s: seq<ClassId>, r: seq<ClassId>)
    requires s <= r && NoDuplicates(r)
    ensures forall j :: |s| <= j < |r| ==> r[j] !in s
  {
    forall j | |s| <= j < |r| ensures r[j] !in s {
      assert forall a :: 0 <= a < |s| ==> s[a] == r[a] && r[a] != r[j];
    }
  }

  // ---------------------------------------------------------------------
  // An interface before the next sibling
  // ---------------------------------------------------------------------

  /**
   * An interface that `add` accepts takes the next position, and the
   * whole walk from it comes before the declarations that follow it.
   */
  lemma NewInterfaceBlock(h: Hierarchy, d: ClassId, k: nat, found: seq<ClassId>)
    requires Acyclic(h) && k < |Interfaces(h, d)| && Interfaces(h, d)[k] !in found
    ensures var i := Interfaces(h, d)[k];
      && |found| < |Ifaces(h, d, k, found)|
      && Ifaces(h, d, k, found)[|found|] == i
      && Walk(h, i, found + [i]) <= Ifaces(h, d, k, found)
  {
    var i := Interfaces(h, d)[k];
    var next := IfacesStep(h, d, k, found);
    assert (found + [i])[|found|] == i;
  }

  /** After walking c, every interface c or one of its superclasses declares is in the list. */
  lemma WalkCoversDeclared(h: Hierarchy, c: ClassId, found: seq<ClassId>)
    requires Acyclic(h)
    ensures forall t :: t in Succ(h, c) ==> t in Walk(h, c, found)
  {
    assert Closed(h, found, Elems(found));
    WalkClosed(h, c, found, Elems(found));
  }

  /** Every interface that walking c adds is provided by c. */
  lemma WalkAddsProvided(h: Hierarchy, c: ClassId, found: seq<ClassId>)
    requires Acyclic(h) && NoDuplicates(found)
    ensures forall j :: |found| <= j < |Walk(h, c, found)| ==> Provides(h, c, Walk(h, c, found)[j])
  {
    var r := Walk(h, c, found);
    WalkNoDuplicates(h, c, found);
    WalkSound(h, c, found);
    AppendedAreNew(found, r);
    forall j | |found| <= j < |r| ensures Provides(h, c, r[j]) {
      assert r[j] in r && r[j] !in found;
    }
  }

  /** What the `for` loop adds after round k comes from the declarations after position k. */
  lemma LaterSiblingsAfter(h: Hierarchy, d: ClassId, k: nat, found: seq<ClassId>)
    requires Acyclic(h) && k < |Interfaces(h, d)| && NoDuplicates(found)
    ensures var i := Interfaces(h, d)[k];
      var next := if i in found then found else Walk(h, i, found + [i]);
      forall j :: |next| <= j < |Ifaces(h, d, k, found)| ==>
        Contributed(h, Interfaces(h, d)[k + 1..], Ifaces(h, d, k, found)[j])
  {
    var i := Interfaces(h, d)[k];
    var next := IfacesStep(h, d, k, found);
    var r := Ifaces(h, d, k + 1, next);
    if i !in found {
      AppendAbsent(found, i);
      UnseenShrinks(h, found, d, k);
      WalkNoDuplicates(h, i, found + [i]);
    }
    IfacesNoDuplicates(h, d, k + 1, next);
    IfacesSound(h, d, k + 1, next);
    AppendedAreNew(next, r);
    forall j | |next| <= j < |r| ensures Contributed(h, Interfaces(h, d)[k + 1..], r[j]) {
      assert r[j] in r && r[j] !in next;
    }
  }

  // ---------------------------------------------------------------------
  // A worked hierarchy: class C implements X and Y, interface X extends Z,
  // and C's superclass B implements Y and W.
  // ---------------------------------------------------------------------

  const C: ClassId := 1
  const B: ClassId := 2
  const X: ClassId := 10
  const Y: ClassId := 11
  const Z: ClassId := 12
  const W: ClassId := 13

  function Sample(): Hierarchy
  {
    Hierarchy(map[C := B], map[C := [X, Y], X := [Z], B := [Y, W]])
  }

  lemma SampleAcyclic()
    ensures Acyclic(Sample())
  {
    var h := Sample();
    assert h.superclass.Keys == {C};
    assert |h.superclass| == 1;
    forall c ensures ChainWithin(h, c, 1).Some? {
      if c == C {
        assert ChainWithin(h, B, 0) == Some([B]);
      }
    }
  }

  /** A class without superclass and without interfaces adds nothing. */
  lemma WalkLeaf(h: Hierarchy, c: ClassId, found: seq<ClassId>)
    requires Acyclic(h) && Superclass(h, c).None? && Interfaces(h, c) == []
    ensures Walk(h, c, found) == found
  {
    OwnBeforeInherited(h, c, found);
  }

  /** What discovery looks at in the worked hierarchy, class by class. */
  ghost predicate SampleShape(h: Hierarchy)
  {
    && Superclass(h, C) == Some(B) && Interfaces(h, C) == [X, Y]
    && Superclass(h, B).None? && Interfaces(h, B) == [Y, W]
    && Superclass(h, X).None? && Interfaces(h, X) == [Z]
    && Superclass(h, Y).None? && Interfaces(h, Y) == []
    && Superclass(h, Z).None? && Interfaces(h, Z) == []
    && Superclass(h, W).None? && Interfaces(h, W) == []
  }

  /** Round k of the `for` loop when the interface there is new: walk it at once. */
  lemma RoundAdds(h: Hierarchy, d: ClassId, k: nat, found: seq<ClassId>, i: ClassId)
    requires Acyclic(h) && k < |Interfaces(h, d)| && Interfaces(h, d)[k] == i && i !in found
    ensures Ifaces(h, d, k, found) == Ifaces(h, d, k + 1, Walk(h, i, found + [i]))
  {
    var next := IfacesStep(h, d, k, found);
  }

  /** Round k of the `for` loop when the interface there was found before: nothing changes. */
  lemma RoundSkips(h: Hierarchy, d: ClassId, k: nat, found: seq<ClassId>, i: ClassId)
    requires Acyclic(h) && k < |Interfaces(h, d)| && Interfaces(h, d)[k] == i && i in found
    ensures Ifaces(h, d, k, found) == Ifaces(h, d, k + 1, found)
  {
    var next := IfacesStep(h, d, k, found);
  }

  /**
   * The lists the worked example builds, one `add` at a time. They are
   * proved here, apart from any hierarchy, so the lemmas that use them do
   * not have to unfold the sequence literals next to the walk's definitions.
   */
  lemma SampleLists()
    ensures [] + [X] == [X] && [X] + [Z] == [X, Z]
    ensures [X, Z] + [Y] == [X, Z, Y] && [X, Z, Y] + [W] == [X, Z, Y, W]
  {
  }

  /** The `for` loop ends once k reaches the number of declarations. */
  lemma RoundEnds(h: Hierarchy, d: ClassId, k: nat, found: seq<ClassId>)
    requires Acyclic(h) && k == |Interfaces(h, d)|
    ensures Ifaces(h, d, k, found) == found
  {
  }

  /** X's walk: X extends Z, which is new. */
  lemma SampleWalkX(h: Hierarchy)
    requires Acyclic(h) && SampleShape(h)
    ensures Walk(h, X, [X]) == [X, Z]
  {
    OwnBeforeInherited(h, X, [X]);
    RoundAdds(h, X, 0, [X], Z);
    SampleLists();
    WalkLeaf(h, Z, [X, Z]);
    RoundEnds(h, X, 1, [X, Z]);
  }

  /** C's own round: X, then Z because X extends it, then Y. */
  lemma SampleOwnRound(h: Hierarchy)
    requires Acyclic(h) && SampleShape(h)
    ensures Ifaces(h, C, 0, []) == [X, Z, Y]
  {
    SampleLists();
    RoundAdds(h, C, 0, [], X);
    SampleWalkX(h);
    RoundAdds(h, C, 1, [X, Z], Y);
    WalkLeaf(h, Y, [X, Z, Y]);
    RoundEnds(h, C, 2, [X, Z, Y]);
  }

  /** B's round: Y is already there, W is new. */
  lemma SampleInheritedRound(h: Hierarchy)
    requires Acyclic(h) && SampleShape(h)
    ensures Walk(h, B, [X, Z, Y]) == [X, Z, Y, W]
  {
    OwnBeforeInherited(h, B, [X, Z, Y]);
    RoundSkips(h, B, 0, [X, Z, Y], Y);
    RoundAdds(h, B, 1, [X, Z, Y], W);
    SampleLists();
    WalkLeaf(h, W, [X, Z, Y, W]);
    RoundEnds(h, B, 2, [X, Z, Y, W]);
  }

  /** On any hierarchy of the worked shape, discovery from C lists X, then Z (which X extends), then Y, then W from B. */
  lemma ShapeDiscovery(h: Hierarchy)
    requires Acyclic(h) && SampleShape(h)
    ensures AllInterfaces(h, C) == [X, Z, Y, W]
  {
    SampleOwnRound(h);
    SampleInheritedRound(h);
    OwnBeforeInherited(h, C, []);
  }

  /** Discovery on the worked hierarchy itself. */
  lemma SampleDiscovery()
    ensures Acyclic(Sample()) && AllInterfaces(Sample(), C) == [X, Z, Y, W]
  {
    SampleAcyclic();
    assert SampleShape(Sample());
    ShapeDiscovery(Sample());
  }
}
