/**
 * What the older `ReflectionScanner.Scan` promises the database: every
 * assembly node is created before any connection is drawn, each assembly gets
 * one DEPENDS_ON edge per reference, only the types an assembly defines are
 * connected, a type gets an EXTENDS edge exactly when it has a base type, and
 * an IMPLEMENTS edge only to an interface neither its base type nor another of
 * its interfaces already implements.
 */
module DotnetReflectionLaws {
  import opened Wrappers
  import opened Graph
  import opened Linq
  import opened DotnetModel
  import opened DotnetAssemblyScanner
  import opened DotnetReflectionScanner
  import NetGraphLaws

  /** One DEPENDS_ON edge per reference, to the references in their order. */
  lemma DependsLayout(m: Models, a: nat)
    ensures var refs := AssemblyAt(m, a).references;
      && |DependsLog(m, a)| == |refs|
      && forall i :: 0 <= i < |refs| ==> DependsLog(m, a)[i] == RelationshipCreated(AssemblyRef(a), AssemblyRef(refs[i]), DependsOn)
  {
    SelectManyOnes(AssemblyAt(m, a).references, DependsOnEdge(a));
  }

  /** The IMPLEMENTS step draws IMPLEMENTS edges from the type, each to an interface it connects. */
  lemma ImplementsLogEdges(m: Models, t: nat)
    ensures forall e :: e in ImplementsLog(m, t) ==>
      e.RelationshipCreated? && e.kind == Implements && e.from == TypeRef(t) && e.to.TypeRef? && e.to.position in DirectInterfaces(m, t)
  {
    var direct := DirectInterfaces(m, t);
    forall e | e in ImplementsLog(m, t)
      ensures e.RelationshipCreated? && e.kind == Implements && e.from == TypeRef(t) && e.to.TypeRef? && e.to.position in direct
    {
      SelectManyMembership(direct, ImplementsEdge(t), e);
    }
  }

  /** A type gets an EXTENDS edge exactly when it has a base type, to that base type, and at most one. */
  lemma BaseTypeEdge(m: Models, t: nat, e: Event<NodeRef>)
    ensures (e in TypeLog(m, t) && e.RelationshipCreated? && e.kind == ExtendsKind)
        <==> (TypeAt(m, t).baseType.Some? && e == RelationshipCreated(TypeRef(t), TypeRef(TypeAt(m, t).baseType.value), ExtendsKind))
    ensures multiset(BaseLog(m, t))[e] <= 1
  {
    ImplementsLogEdges(m, t);
  }

  /** What an IMPLEMENTS edge must not repeat: the base type's interfaces and those of every listed interface. */
  lemma InheritedInterfacesMembership(m: Models, t: nat, j: nat)
    ensures j in InheritedInterfaces(m, t)
        <==> (TypeAt(m, t).baseType.Some? && j in TypeAt(m, TypeAt(m, t).baseType.value).implements)
             || exists i :: i in TypeAt(m, t).implements && j in TypeAt(m, i).implements
  {
    var n := TypeAt(m, t);
    SelectManyMembership(n.implements, InterfacesOf(m), j);
    if exists i :: i in n.implements && j in TypeAt(m, i).implements {
      var i :| i in n.implements && j in TypeAt(m, i).implements;
      var k :| 0 <= k < |n.implements| && n.implements[k] == i;
    }
  }

  /** The IMPLEMENTS step draws one edge to each interface it connects, and none to any other. */
  lemma ImplementsLogCount(m: Models, t: nat, j: nat)
    ensures multiset(ImplementsLog(m, t))[RelationshipCreated(TypeRef(t), TypeRef(j), Implements)]
         == if j in TypeAt(m, t).implements && j !in InheritedInterfaces(m, t) then 1 else 0
  {
    var direct := DirectInterfaces(m, t);
    var log := ImplementsLog(m, t);
    var e := RelationshipCreated(TypeRef(t), TypeRef(j), Implements);
    ExceptMembership(TypeAt(m, t).implements, InheritedInterfaces(m, t), j);
    ExceptDistinct(TypeAt(m, t).implements, InheritedInterfaces(m, t));
    SelectManyOnes(direct, ImplementsEdge(t));
    assert forall i, k :: 0 <= i < k < |log| ==> log[i] != log[k] by {
      forall i, k | 0 <= i < k < |log|
        ensures log[i] != log[k]
      {
        assert direct[i] != direct[k];
      }
    }
    NetGraphLaws.DistinctCount(log, e);
    if j in direct {
      var i :| 0 <= i < |direct| && direct[i] == j;
      assert log[i] == e;
    } else {
      forall i | 0 <= i < |log|
        ensures log[i] != e
      {
        assert log[i].to == TypeRef(direct[i]);
      }
    }
  }

  /**
   * The IMPLEMENTS edges of a type go to its listed interfaces that neither its
   * base type nor another listed interface implements, each exactly once.
   */
  lemma InterfaceEdge(m: Models, t: nat, j: nat)
    ensures multiset(TypeLog(m, t))[RelationshipCreated(TypeRef(t), TypeRef(j), Implements)]
         == if j in TypeAt(m, t).implements && j !in InheritedInterfaces(m, t) then 1 else 0
  {
    ImplementsLogCount(m, t, j);
    assert multiset(TypeLog(m, t)) == multiset(BaseLog(m, t)) + multiset(ImplementsLog(m, t));
  }

  /** An interface the base type already implements gets no IMPLEMENTS edge. */
  lemma InheritedInterfaceNotRepeated(m: Models, t: nat, b: nat, j: nat)
    requires TypeAt(m, t).baseType == Some(b) && j in TypeAt(m, b).implements
    ensures RelationshipCreated(TypeRef(t), TypeRef(j), Implements) !in TypeLog(m, t)
  {
    InheritedInterfacesMembership(m, t, j);
    InterfaceEdge(m, t, j);
  }

  /** An interface implied by another listed interface gets no IMPLEMENTS edge. */
  lemma ImpliedInterfaceNotRepeated(m: Models, t: nat, i: nat, j: nat)
    requires i in TypeAt(m, t).implements && j in TypeAt(m, i).implements
    ensures RelationshipCreated(TypeRef(t), TypeRef(j), Implements) !in TypeLog(m, t)
  {
    InheritedInterfacesMembership(m, t, j);
    InterfaceEdge(m, t, j);
  }

  /** A listed interface that is neither inherited nor implied gets exactly one IMPLEMENTS edge. */
  lemma DirectInterfaceConnectedOnce(m: Models, t: nat, j: nat)
    requires j in TypeAt(m, t).implements
    requires TypeAt(m, t).baseType.Some? ==> j !in TypeAt(m, TypeAt(m, t).baseType.value).implements
    requires forall i :: i in TypeAt(m, t).implements ==> j !in TypeAt(m, i).implements
    ensures multiset(TypeLog(m, t))[RelationshipCreated(TypeRef(t), TypeRef(j), Implements)] == 1
  {
    InheritedInterfacesMembership(m, t, j);
    InterfaceEdge(m, t, j);
  }

  /** An edge drawn for a type: EXTENDS or IMPLEMENTS, from one of the listed types. */
  predicate TypeEdgeFrom(types: seq<nat>, e: Event<NodeRef>)
  {
    e.RelationshipCreated? && (e.kind == ExtendsKind || e.kind == Implements) && e.from.TypeRef? && e.from.position in types
  }

  lemma TypeLogEdges(m: Models, t: nat)
    ensures forall e :: e in TypeLog(m, t) ==> TypeEdgeFrom([t], e)
  {
    ImplementsLogEdges(m, t);
  }

  /** `ConnectTypes` draws only EXTENDS and IMPLEMENTS edges, and only from the types the assembly defines. */
  lemma TypesLogEdges(m: Models, a: nat)
    ensures forall e :: e in TypesLog(m, a) ==> TypeEdgeFrom(AssemblyAt(m, a).definedTypes, e)
  {
    var types := AssemblyAt(m, a).definedTypes;
    forall e | e in TypesLog(m, a)
      ensures TypeEdgeFrom(types, e)
    {
      SelectManyMembership(types, TypeOf(m), e);
      var i :| 0 <= i < |types| && e in TypeLog(m, types[i]);
      TypeLogEdges(m, types[i]);
    }
  }

  /** `ConnectAssemblyReferences` draws DEPENDS_ON edges from the assembly to its references, and nothing else. */
  lemma DependsLogEdges(m: Models, a: nat)
    ensures forall e :: e in DependsLog(m, a) ==>
      && e.RelationshipCreated? && e.from == AssemblyRef(a) && e.kind == DependsOn
      && e.to.AssemblyRef? && e.to.position in AssemblyAt(m, a).references
  {
    DependsLayout(m, a);
  }

  /**
   * Connecting an assembly draws its DEPENDS_ON edges first, then those of its
   * types: every DEPENDS_ON edge precedes every other edge drawn for it.
   */
  lemma ReferencesBeforeTypes(m: Models, a: nat)
    ensures var log := ConnectLog(m, a); var d := |DependsLog(m, a)|;
      && (forall i :: 0 <= i < d ==> log[i].RelationshipCreated? && log[i].kind == DependsOn && log[i].from == AssemblyRef(a))
      && (forall i :: d <= i < |log| ==> TypeEdgeFrom(AssemblyAt(m, a).definedTypes, log[i]))
  {
    var log := ConnectLog(m, a);
    var d := |DependsLog(m, a)|;
    DependsLayout(m, a);
    TypesLogEdges(m, a);
    forall i | d <= i < |log|
      ensures TypeEdgeFrom(AssemblyAt(m, a).definedTypes, log[i])
    {
      assert log[i] == TypesLog(m, a)[i - d];
    }
  }

  /** An edge drawn for assembly `a`: DEPENDS_ON to one of its references, or an edge of a type it defines. */
  predicate ConnectedFrom(m: Models, a: nat, e: Event<NodeRef>)
  {
    if e.RelationshipCreated? && e.kind == DependsOn then
      e.from == AssemblyRef(a) && e.to.AssemblyRef? && e.to.position in AssemblyAt(m, a).references
    else
      TypeEdgeFrom(AssemblyAt(m, a).definedTypes, e)
  }

  /**
   * Only the scanned assemblies and the types they define are connected: a
   * DEPENDS_ON edge comes from a scanned assembly to one of its references,
   * every other edge from a type some scanned assembly defines.
   */
  lemma OnlyDefinedTypesConnected(m: Models, assemblies: seq<nat>, e: Event<NodeRef>)
    requires e in ConnectAllLog(m, assemblies)
    ensures e.RelationshipCreated?
    ensures exists k :: 0 <= k < |assemblies| && ConnectedFrom(m, assemblies[k], e)
  {
    SelectManyMembership(assemblies, ConnectOf(m), e);
    var k :| 0 <= k < |assemblies| && e in ConnectLog(m, assemblies[k]);
    var a := assemblies[k];
    DependsLogEdges(m, a);
    TypesLogEdges(m, a);
  }

  /** The connecting loop draws relationships only. */
  lemma ConnectAllRelationships(m: Models, assemblies: seq<nat>)
    ensures Relationships(ConnectAllLog(m, assemblies))
  {
    forall e | e in ConnectAllLog(m, assemblies)
      ensures e.RelationshipCreated?
    {
      OnlyDefinedTypesConnected(m, assemblies, e);
    }
  }

  /** Each assembly scan creates the node of the assembly it returns, first. */
  lemma {:induction false} ScansLogCreates(assemblies: seq<nat>, scanss: seq<seq<TypeScan>>, i: nat)
    requires |assemblies| == |scanss| && i < |assemblies|
    ensures NodeCreated(AssemblyRef(assemblies[i])) in ScansLog(assemblies, scanss)
    decreases |assemblies|
  {
    var n := |assemblies| - 1;
    if i < n {
      ScansLogCreates(assemblies[..n], scanss[..n], i);
    } else {
      assert AssemblyEvents(assemblies[n], scanss[n])[0] == NodeCreated(AssemblyRef(assemblies[n]));
    }
  }

  /**
   * All assemblies are scanned before any is connected: in the log `Scan`
   * leaves, every node is created before the first connection is drawn, and
   * the node of every connected assembly is among them.
   */
  lemma ScannedBeforeConnected(e0: Log, m: Models, assemblies: seq<nat>, scanss: seq<seq<TypeScan>>)
    requires |assemblies| == |scanss|
    ensures var scans := ScansLog(assemblies, scanss); var log := e0 + scans + ConnectAllLog(m, assemblies);
      && (forall i :: |e0| + |scans| <= i < |log| ==> log[i].RelationshipCreated?)
      && (forall k :: 0 <= k < |assemblies| ==>
            exists i :: |e0| <= i < |e0| + |scans| && log[i] == NodeCreated(AssemblyRef(assemblies[k])))
  {
    var scans := ScansLog(assemblies, scanss);
    var connect := ConnectAllLog(m, assemblies);
    var log := e0 + scans + connect;
    ConnectAllRelationships(m, assemblies);
    forall i | |e0| + |scans| <= i < |log|
      ensures log[i].RelationshipCreated?
    {
      assert log[i] == connect[i - |e0| - |scans|];
    }
    forall k | 0 <= k < |assemblies|
      ensures exists i :: |e0| <= i < |e0| + |scans| && log[i] == NodeCreated(AssemblyRef(assemblies[k]))
    {
      ScansLogCreates(assemblies, scanss, k);
      var i :| 0 <= i < |scans| && scans[i] == NodeCreated(AssemblyRef(assemblies[k]));
      assert log[|e0| + i] == scans[i];
    }
  }

  /**
   * The connecting loop reads the assembly records once per scanned
   * assembly: an assembly scanned twice is connected twice.
   */
  lemma ConnectAllAppend(m: Models, assemblies: seq<nat>, a: nat)
    ensures ConnectAllLog(m, assemblies + [a]) == ConnectAllLog(m, assemblies) + ConnectLog(m, a)
  {
    assert (assemblies + [a])[..|assemblies|] == assemblies;
  }
}
