/**
 * What the call sequence of `GraphBuilder.Build` promises the graph store:
 * the order of its phases, that every node is created exactly once, and
 * which relationships each type, method and property gets.
 */
module NetGraphLaws {
  import opened Wrappers
  import opened Graph
  import opened Linq
  import opened CountedMap
  import opened NetModel
  import opened NetGraphBuilder

  /** One relationship per target, to the targets in their order. */
  lemma EdgesLayout(from: NodeRef, targets: seq<NodeRef>, kind: string)
    ensures |Edges(from, targets, kind)| == |targets|
    ensures forall i :: 0 <= i < |targets| ==> Edges(from, targets, kind)[i] == Edge(from, targets[i], kind)
  {
    SelectManyOnes(targets, EdgeFrom(from, kind));
  }

  /** One CreateNode per node, in order. */
  lemma NodesLayout(refs: seq<NodeRef>)
    ensures |NodesLog(refs)| == |refs|
    ensures forall i :: 0 <= i < |refs| ==> NodesLog(refs)[i] == NodeCreated(refs[i])
  {
    SelectManyOnes(refs, Created);
  }

  /** A node is created as often as it is listed. */
  lemma {:induction false} NodesLogCount(refs: seq<NodeRef>, r: NodeRef)
    ensures multiset(NodesLog(refs))[NodeCreated(r)] == multiset(refs)[r]
    decreases |refs|
  {
    if |refs| > 0 {
      var init := refs[..|refs| - 1];
      NodesLogCount(init, r);
      assert refs == init + [refs[|refs| - 1]];
    }
  }

  /** The references of one kind list each position as often as the positions do, and nothing of another kind. */
  lemma {:induction false} RefsCount(kind: NodeKind, ps: seq<nat>, r: NodeRef)
    ensures multiset(Refs(kind, ps))[r] == if r.Ref? && r.kind == kind then multiset(ps)[r.position] else 0
    decreases |ps|
  {
    if |ps| > 0 {
      var init := ps[..|ps| - 1];
      RefsCount(kind, init, r);
      assert Refs(kind, ps) == Refs(kind, init) + [Ref(kind, ps[|ps| - 1])];
      assert ps == init + [ps[|ps| - 1]];
    }
  }

  /** A sequence without repetitions holds each of its elements once. */
  lemma {:induction false} DistinctCount<T>(s: seq<T>, x: T)
    requires forall i, j :: 0 <= i < j < |s| ==> s[i] != s[j]
    ensures multiset(s)[x] == if x in s then 1 else 0
    decreases |s|
  {
    if |s| > 0 {
      var init := s[..|s| - 1];
      DistinctCount(init, x);
      assert s == init + [s[|s| - 1]];
      assert x in s <==> x in init || x == s[|s| - 1];
    }
  }

  /** Kinds of events. */
  ghost predicate EdgesOf(log: Log, kind: string)
  {
    forall e :: e in log ==> e.RelationshipCreated? && e.kind == kind
  }

  /** An edge drawn for a member or generic argument of a type: none of the four kinds drawn for the type itself. */
  predicate MemberEdge(e: Event<NodeRef>)
  {
    e.RelationshipCreated? && e.kind != DefinesType && e.kind != ExtendsKind && e.kind != Implements && e.kind != DependsOn
  }

  ghost predicate MemberEdges(log: Log)
  {
    forall e :: e in log ==> MemberEdge(e)
  }

  predicate DependsEdge(e: Event<NodeRef>)
  {
    e.RelationshipCreated? && e.kind == DependsOn
  }

  /** Every event after the node phase is a relationship other than DEPENDS_ON when drawn for a type. */
  predicate TypeEdge(e: Event<NodeRef>)
  {
    e.RelationshipCreated? && e.kind != DependsOn
  }

  lemma EdgesKind(from: NodeRef, targets: seq<NodeRef>, kind: string)
    ensures EdgesOf(Edges(from, targets, kind), kind)
  {
    EdgesLayout(from, targets, kind);
  }

  lemma MemberKinds(kind: string)
    requires kind in {DefinesMethod, Returns, DefinesParameter, HasType, DefinesGenericMethodArg, DefinesProperty,
                      HasAttribute, DefinesGenericTypeArg, InstantiatesGenericType, HasTypeArgument}
    ensures kind != DefinesType && kind != ExtendsKind && kind != Implements && kind != DependsOn
  {
  }

  lemma MemberEdgesOf(from: NodeRef, targets: seq<NodeRef>, kind: string)
    requires kind in {DefinesMethod, Returns, DefinesParameter, HasType, DefinesGenericMethodArg, DefinesProperty,
                      HasAttribute, DefinesGenericTypeArg, InstantiatesGenericType, HasTypeArgument}
    ensures MemberEdges(Edges(from, targets, kind))
  {
    EdgesKind(from, targets, kind);
    MemberKinds(kind);
  }

  lemma MethodLogMembers(g: Arenas, t: nat, m: nat)
    ensures MemberEdges(MethodLog(g, t, m))
  {
    MemberKinds(DefinesMethod);
    MemberKinds(Returns);
    MemberKinds(DefinesParameter);
    MemberKinds(HasType);
    SelectManyEvery(MethodAt(g, m).parameters, ParameterOf(g, m), MemberEdge);
    MemberEdgesOf(Ref(MethodKind, m), Refs(TypeKind, MethodAt(g, m).genericParameters), DefinesGenericMethodArg);
  }

  /** The steps after the interfaces draw none of the edges that define, extend or implement a type. */
  lemma MembersLogMembers(g: Arenas, t: nat)
    ensures MemberEdges(MembersLog(g, t))
  {
    var n := TypeAt(g, t);
    forall m | m in n.methods
      ensures MemberEdges(MethodLog(g, t, m))
    {
      MethodLogMembers(g, t, m);
    }
    SelectManyEvery(n.methods, MethodOf(g, t), MemberEdge);
    MemberKinds(DefinesProperty);
    MemberKinds(HasType);
    SelectManyEvery(n.properties, PropertyOf(g, t), MemberEdge);
    MemberEdgesOf(Ref(TypeKind, t), Refs(TypeKind, n.attributes), HasAttribute);
    MemberEdgesOf(Ref(TypeKind, t), Refs(TypeKind, n.genericTypeArgs), DefinesGenericTypeArg);
    MemberKinds(InstantiatesGenericType);
    MemberEdgesOf(Ref(TypeKind, t), Refs(TypeKind, n.genericTypeInstantiationArgs), HasTypeArgument);
  }

  /** The parts of `TypeLog` by kind: DEFINES_TYPE, EXTENDS and IMPLEMENTS come only from their own step. */
  lemma TypeLogParts(g: Arenas, t: nat)
    ensures EdgesOf(DefinitionLog(g, t), DefinesType)
    ensures EdgesOf(BaseLog(g, t), ExtendsKind)
    ensures EdgesOf(ImplementsLog(g, t), Implements)
    ensures MemberEdges(MembersLog(g, t))
  {
    EdgesKind(Ref(TypeKind, t), Refs(TypeKind, DirectInterfaces(g, t)), Implements);
    MembersLogMembers(g, t);
  }

  /** A type gets one DEFINES_TYPE edge exactly when it knows its assembly, from that assembly. */
  lemma TypeDefinitionEdge(g: Arenas, t: nat, e: Event<NodeRef>)
    ensures (e in TypeLog(g, t) && e.RelationshipCreated? && e.kind == DefinesType)
        <==> (TypeAt(g, t).assembly.Some? && e == Edge(Ref(AssemblyKind, TypeAt(g, t).assembly.value), Ref(TypeKind, t), DefinesType))
    ensures multiset(DefinitionLog(g, t))[e] <= 1
  {
    TypeLogParts(g, t);
  }

  /** A type gets an EXTENDS edge exactly when it has a base type, to that base type. */
  lemma BaseTypeEdge(g: Arenas, t: nat, e: Event<NodeRef>)
    ensures (e in TypeLog(g, t) && e.RelationshipCreated? && e.kind == ExtendsKind)
        <==> (TypeAt(g, t).baseType.Some? && e == Edge(Ref(TypeKind, t), Ref(TypeKind, TypeAt(g, t).baseType.value), ExtendsKind))
    ensures multiset(BaseLog(g, t))[e] <= 1
  {
    TypeLogParts(g, t);
  }

  /** What an IMPLEMENTS edge must not repeat: the base type's interfaces and those of every listed interface. */
  lemma BaseInterfacesMembership(g: Arenas, t: nat, j: nat)
    ensures j in BaseInterfaces(g, t)
        <==> (TypeAt(g, t).baseType.Some? && j in TypeAt(g, TypeAt(g, t).baseType.value).implements)
             || exists i :: i in TypeAt(g, t).implements && j in TypeAt(g, i).implements
  {
    var n := TypeAt(g, t);
    SelectManyMembership(n.implements, ImplementsOf(g), j);
    if exists i :: i in n.implements && j in TypeAt(g, i).implements {
      var i :| i in n.implements && j in TypeAt(g, i).implements;
      var k :| 0 <= k < |n.implements| && n.implements[k] == i;
    }
  }

  /** Over distinct targets, the relationship to each target is drawn once. */
  lemma EdgesCount(from: NodeRef, targets: seq<NodeRef>, kind: string, to: NodeRef)
    requires forall i, k :: 0 <= i < k < |targets| ==> targets[i] != targets[k]
    ensures multiset(Edges(from, targets, kind))[Edge(from, to, kind)] == if to in targets then 1 else 0
  {
    var edges := Edges(from, targets, kind);
    EdgesLayout(from, targets, kind);
    assert forall i, k :: 0 <= i < k < |edges| ==> edges[i] != edges[k] by {
      forall i, k | 0 <= i < k < |edges|
        ensures edges[i] != edges[k]
      {
        assert targets[i] != targets[k];
      }
    }
    DistinctCount(edges, Edge(from, to, kind));
    if to in targets {
      var i :| 0 <= i < |targets| && targets[i] == to;
      assert edges[i] == Edge(from, to, kind);
    }
  }

  /** References to distinct positions are distinct. */
  lemma RefsDistinct(kind: NodeKind, ps: seq<nat>, j: nat)
    requires forall i, k :: 0 <= i < k < |ps| ==> ps[i] != ps[k]
    ensures forall i, k :: 0 <= i < k < |Refs(kind, ps)| ==> Refs(kind, ps)[i] != Refs(kind, ps)[k]
    ensures Ref(kind, j) in Refs(kind, ps) <==> j in ps
  {
    if j in ps {
      var i :| 0 <= i < |ps| && ps[i] == j;
      assert Refs(kind, ps)[i] == Ref(kind, j);
    }
  }

  lemma OnlyInThird<T>(a: seq<T>, b: seq<T>, c: seq<T>, d: seq<T>, x: T)
    requires x !in a && x !in b && x !in d
    ensures multiset(a + b + c + d)[x] == multiset(c)[x]
  {
  }

  /** The IMPLEMENTS step draws one edge to each interface it connects. */
  lemma ImplementsLogCount(g: Arenas, t: nat, j: nat)
    ensures multiset(ImplementsLog(g, t))[Edge(Ref(TypeKind, t), Ref(TypeKind, j), Implements)]
         == if j in TypeAt(g, t).implements && j !in BaseInterfaces(g, t) then 1 else 0
  {
    var direct := DirectInterfaces(g, t);
    ExceptMembership(TypeAt(g, t).implements, BaseInterfaces(g, t), j);
    ExceptDistinct(TypeAt(g, t).implements, BaseInterfaces(g, t));
    RefsDistinct(TypeKind, direct, j);
    EdgesCount(Ref(TypeKind, t), Refs(TypeKind, direct), Implements, Ref(TypeKind, j));
  }

  /**
   * The IMPLEMENTS edges of a type go to its listed interfaces that neither its
   * base type nor another listed interface already implements, each exactly once.
   */
  lemma InterfaceEdge(g: Arenas, t: nat, j: nat)
    ensures multiset(TypeLog(g, t))[Edge(Ref(TypeKind, t), Ref(TypeKind, j), Implements)]
         == if j in TypeAt(g, t).implements && j !in BaseInterfaces(g, t) then 1 else 0
  {
    var e := Edge(Ref(TypeKind, t), Ref(TypeKind, j), Implements);
    TypeLogParts(g, t);
    ImplementsLogCount(g, t, j);
    assert !MemberEdge(e);
    OnlyInThird(DefinitionLog(g, t), BaseLog(g, t), ImplementsLog(g, t), MembersLog(g, t), e);
  }

  /** An interface the base type already implements gets no IMPLEMENTS edge. */
  lemma InheritedInterfaceNotRepeated(g: Arenas, t: nat, b: nat, j: nat)
    requires TypeAt(g, t).baseType == Some(b) && j in TypeAt(g, b).implements
    ensures Edge(Ref(TypeKind, t), Ref(TypeKind, j), Implements) !in TypeLog(g, t)
  {
    BaseInterfacesMembership(g, t, j);
    InterfaceEdge(g, t, j);
  }

  /** An interface implied by another listed interface gets no IMPLEMENTS edge. */
  lemma ImpliedInterfaceNotRepeated(g: Arenas, t: nat, i: nat, j: nat)
    requires i in TypeAt(g, t).implements && j in TypeAt(g, i).implements
    ensures Edge(Ref(TypeKind, t), Ref(TypeKind, j), Implements) !in TypeLog(g, t)
  {
    BaseInterfacesMembership(g, t, j);
    InterfaceEdge(g, t, j);
  }

  /**
   * The edges of one method: DEFINES_METHOD from the type, RETURNS to the
   * return type (null when it is unknown), a DEFINES_PARAMETER and HAS_TYPE
   * pair per parameter, then one DEFINES_GENERIC_METHOD_ARG per generic parameter.
   */
  lemma MethodLayout(g: Arenas, t: nat, m: nat)
    ensures var ps := MethodAt(g, m).parameters; var gs := MethodAt(g, m).genericParameters;
      var log := MethodLog(g, t, m);
      && |log| == 2 + 2 * |ps| + |gs|
      && log[0] == Edge(Ref(TypeKind, t), Ref(MethodKind, m), DefinesMethod)
      && log[1] == Edge(Ref(MethodKind, m), OptRef(TypeKind, MethodAt(g, m).returnType), Returns)
      && (forall k :: 0 <= k < |ps| ==>
            && log[2 + 2 * k] == Edge(Ref(MethodKind, m), Ref(ParameterKind, ps[k]), DefinesParameter)
            && log[3 + 2 * k] == Edge(Ref(ParameterKind, ps[k]), OptRef(TypeKind, ParameterAt(g, ps[k]).parameterType), HasType))
      && (forall k :: 0 <= k < |gs| ==>
            log[2 + 2 * |ps| + k] == Edge(Ref(MethodKind, m), Ref(TypeKind, gs[k]), DefinesGenericMethodArg))
  {
    MethodParameterEdges(g, t, m);
    MethodGenericEdges(g, t, m);
  }

  /** The parameter edges of `MethodLog` sit after its first two entries, two per parameter. */
  lemma MethodParameterEdges(g: Arenas, t: nat, m: nat)
    ensures var ps := MethodAt(g, m).parameters; var log := MethodLog(g, t, m);
      && |log| == 2 + 2 * |ps| + |GenericMethodArgsLog(g, m)|
      && forall k :: 0 <= k < |ps| ==>
           && log[2 + 2 * k] == Edge(Ref(MethodKind, m), Ref(ParameterKind, ps[k]), DefinesParameter)
           && log[3 + 2 * k] == Edge(Ref(ParameterKind, ps[k]), OptRef(TypeKind, ParameterAt(g, ps[k]).parameterType), HasType)
  {
    var ps, pl := MethodAt(g, m).parameters, ParametersLog(g, m);
    var log := MethodLog(g, t, m);
    ParametersLayout(g, m);
    forall k | 0 <= k < |ps|
      ensures log[2 + 2 * k] == pl[2 * k] && log[3 + 2 * k] == pl[2 * k + 1]
    {
    }
  }

  /** The generic parameter edges close `MethodLog`, one per generic parameter. */
  lemma MethodGenericEdges(g: Arenas, t: nat, m: nat)
    ensures var gs := MethodAt(g, m).genericParameters; var log := MethodLog(g, t, m);
      && |log| == 2 + |ParametersLog(g, m)| + |gs|
      && forall k :: 0 <= k < |gs| ==>
           log[2 + |ParametersLog(g, m)| + k] == Edge(Ref(MethodKind, m), Ref(TypeKind, gs[k]), DefinesGenericMethodArg)
  {
    var gs, pl, gl := MethodAt(g, m).genericParameters, ParametersLog(g, m), GenericMethodArgsLog(g, m);
    var log := MethodLog(g, t, m);
    EdgesLayout(Ref(MethodKind, m), Refs(TypeKind, gs), DefinesGenericMethodArg);
    assert log == log[..2] + pl + gl;
    forall k | 0 <= k < |gs|
      ensures log[2 + |pl| + k] == gl[k]
    {
    }
  }

  /** The edges of a method's parameters: a DEFINES_PARAMETER and HAS_TYPE pair per parameter, in order. */
  lemma ParametersLayout(g: Arenas, m: nat)
    ensures var ps := MethodAt(g, m).parameters; var log := ParametersLog(g, m);
      && |log| == 2 * |ps|
      && forall k :: 0 <= k < |ps| ==>
           && log[2 * k] == Edge(Ref(MethodKind, m), Ref(ParameterKind, ps[k]), DefinesParameter)
           && log[2 * k + 1] == Edge(Ref(ParameterKind, ps[k]), OptRef(TypeKind, ParameterAt(g, ps[k]).parameterType), HasType)
  {
    SelectManyPairs(MethodAt(g, m).parameters, ParameterOf(g, m));
  }

  /** The edges of the properties of a type: a DEFINES_PROPERTY and HAS_TYPE pair per property, in order. */
  lemma PropertiesLayout(g: Arenas, t: nat)
    ensures var qs := TypeAt(g, t).properties; var log := PropertiesLog(g, t);
      && |log| == 2 * |qs|
      && forall k :: 0 <= k < |qs| ==>
           && log[2 * k] == Edge(Ref(TypeKind, t), Ref(PropertyKind, qs[k]), DefinesProperty)
           && log[2 * k + 1] == Edge(Ref(PropertyKind, qs[k]), OptRef(TypeKind, PropertyAt(g, qs[k]).propertyType), HasType)
  {
    SelectManyPairs(TypeAt(g, t).properties, PropertyOf(g, t));
  }

  /**
   * A generic type instantiation gets INSTANTIATES_GENERIC_TYPE to its generic
   * type, then one HAS_TYPE_ARGUMENT per argument; any other type gets neither.
   */
  lemma InstantiationLayout(g: Arenas, t: nat)
    ensures var n := TypeAt(g, t); var log := InstantiationLog(g, t);
      && (!n.isGenericTypeInstantiation ==> log == [])
      && (n.isGenericTypeInstantiation ==>
            && |log| == 1 + |n.genericTypeInstantiationArgs|
            && log[0] == Edge(Ref(TypeKind, t), OptRef(TypeKind, n.genericType), InstantiatesGenericType)
            && forall k :: 0 <= k < |n.genericTypeInstantiationArgs| ==>
                 log[1 + k] == Edge(Ref(TypeKind, t), Ref(TypeKind, n.genericTypeInstantiationArgs[k]), HasTypeArgument))
  {
    if TypeAt(g, t).isGenericTypeInstantiation {
      InstantiationEdges(g, t);
    }
  }

  /** The edges of an instantiation: INSTANTIATES_GENERIC_TYPE first, then one HAS_TYPE_ARGUMENT per argument. */
  lemma InstantiationEdges(g: Arenas, t: nat)
    requires TypeAt(g, t).isGenericTypeInstantiation
    ensures var n := TypeAt(g, t); var log := InstantiationLog(g, t);
      && |log| == 1 + |n.genericTypeInstantiationArgs|
      && log[0] == Edge(Ref(TypeKind, t), OptRef(TypeKind, n.genericType), InstantiatesGenericType)
      && forall k :: 0 <= k < |n.genericTypeInstantiationArgs| ==>
           log[1 + k] == Edge(Ref(TypeKind, t), Ref(TypeKind, n.genericTypeInstantiationArgs[k]), HasTypeArgument)
  {
    var n := TypeAt(g, t);
    var args := Edges(Ref(TypeKind, t), Refs(TypeKind, n.genericTypeInstantiationArgs), HasTypeArgument);
    EdgesLayout(Ref(TypeKind, t), Refs(TypeKind, n.genericTypeInstantiationArgs), HasTypeArgument);
    assert InstantiationLog(g, t) == InstantiationLog(g, t)[..1] + args;
  }

  /** How many nodes `CreateAllNodes` creates: every scanned assembly and every node of the other four arenas. */
  function NodeCount(g: Arenas, scanned: seq<nat>): nat
  {
    |scanned| + |g.types| + |g.methods| + |g.parameters| + |g.properties|
  }

  lemma AllNodesLayout(g: Arenas, scanned: seq<nat>)
    ensures |AllNodesLog(g, scanned)| == NodeCount(g, scanned)
    ensures forall e :: e in AllNodesLog(g, scanned) ==> e.NodeCreated?
  {
    NodesLayout(Refs(AssemblyKind, scanned));
    NodesLayout(Refs(TypeKind, Positions(|g.types|)));
    NodesLayout(Refs(MethodKind, Positions(|g.methods|)));
    NodesLayout(Refs(ParameterKind, Positions(|g.parameters|)));
    NodesLayout(Refs(PropertyKind, Positions(|g.properties|)));
  }

  /** The DEPENDS_ON phase draws DEPENDS_ON edges between assemblies and nothing else. */
  lemma DependsPhase(g: Arenas, scanned: seq<nat>)
    ensures forall e :: e in SelectMany(scanned, DependsOf(g)) ==> DependsEdge(e)
  {
    forall a | a in scanned
      ensures EdgesOf(DependsLog(g, a), DependsOn)
    {
      EdgesKind(Ref(AssemblyKind, a), Refs(AssemblyKind, AssemblyAt(g, a).references), DependsOn);
    }
    SelectManyEvery(scanned, DependsOf(g), DependsEdge);
  }

  /** The type phase draws relationships, none of them DEPENDS_ON. */
  lemma TypesPhase(g: Arenas)
    ensures forall e :: e in TypesLog(g) ==> TypeEdge(e)
  {
    forall t | t in Positions(|g.types|)
      ensures forall e :: e in TypeLog(g, t) ==> TypeEdge(e)
    {
      TypeLogParts(g, t);
    }
    SelectManyEvery(Positions(|g.types|), TypeOf(g), TypeEdge);
  }

  /** The order of three phases after a clear, whatever the phases hold. */
  lemma PhasesOrder(nodes: Log, deps: Log, types: Log)
    requires forall e :: e in nodes ==> e.NodeCreated?
    requires forall e :: e in deps ==> DependsEdge(e)
    requires forall e :: e in types ==> TypeEdge(e)
    ensures var log := [Cleared] + nodes + deps + types; var n := |nodes|; var d := |deps|;
      && log[0] == Cleared
      && (forall i :: 1 <= i <= n ==> log[i].NodeCreated?)
      && (forall i :: 1 + n <= i < 1 + n + d ==> log[i].RelationshipCreated? && log[i].kind == DependsOn)
      && (forall i :: 1 + n + d <= i < |log| ==> log[i].RelationshipCreated? && log[i].kind != DependsOn)
  {
    var log := [Cleared] + nodes + deps + types;
    var n := |nodes|;
    forall i | 1 <= i <= n
      ensures log[i].NodeCreated?
    {
      assert log[i] == nodes[i - 1];
    }
    forall i | 1 + n <= i < 1 + n + |deps|
      ensures log[i].RelationshipCreated? && log[i].kind == DependsOn
    {
      assert log[i] == deps[i - 1 - n] && deps[i - 1 - n] in deps;
    }
    forall i | 1 + n + |deps| <= i < |log|
      ensures log[i].RelationshipCreated? && log[i].kind != DependsOn
    {
      assert log[i] == types[i - 1 - n - |deps|] && types[i - 1 - n - |deps|] in types;
    }
  }

  /**
   * `Build` clears the store first, creates every node before drawing any
   * relationship, and draws the DEPENDS_ON edges before those of the types.
   */
  lemma BuildOrder(g: Arenas, scanned: seq<nat>)
    ensures var log := BuildLog(g, scanned); var n := NodeCount(g, scanned);
      var d := |SelectMany(scanned, DependsOf(g))|;
      && |log| == 1 + n + d + |TypesLog(g)|
      && log[0] == Cleared
      && (forall i :: 1 <= i <= n ==> log[i].NodeCreated?)
      && (forall i :: 1 + n <= i < 1 + n + d ==> log[i].RelationshipCreated? && log[i].kind == DependsOn)
      && (forall i :: 1 + n + d <= i < |log| ==> log[i].RelationshipCreated? && log[i].kind != DependsOn)
  {
    AllNodesLayout(g, scanned);
    DependsPhase(g, scanned);
    TypesPhase(g);
    PhasesOrder(AllNodesLog(g, scanned), SelectMany(scanned, DependsOf(g)), TypesLog(g));
  }

  /** How often `Build` is expected to create a node: once per listing for an assembly, once for any other node of the factory. */
  function ExpectedCreations(g: Arenas, scanned: seq<nat>, r: NodeRef): nat
  {
    match r
    case NoNode => 0
    case Ref(kind, p) =>
      match kind
      case AssemblyKind => multiset(scanned)[p]
      case TypeKind => if p < |g.types| then 1 else 0
      case MethodKind => if p < |g.methods| then 1 else 0
      case ParameterKind => if p < |g.parameters| then 1 else 0
      case PropertyKind => if p < |g.properties| then 1 else 0
  }

  /** The nodes of one kind are created as often as their positions are listed. */
  lemma KindNodesCount(kind: NodeKind, ps: seq<nat>, r: NodeRef)
    ensures multiset(NodesLog(Refs(kind, ps)))[NodeCreated(r)] == if r.Ref? && r.kind == kind then multiset(ps)[r.position] else 0
  {
    NodesLogCount(Refs(kind, ps), r);
    RefsCount(kind, ps, r);
  }

  lemma ArenaNodesCount(kind: NodeKind, n: nat, r: NodeRef)
    ensures multiset(NodesLog(Refs(kind, Positions(n))))[NodeCreated(r)] == if r.Ref? && r.kind == kind && r.position < n then 1 else 0
  {
    KindNodesCount(kind, Positions(n), r);
    if r.Ref? {
      PositionsCount(n, r.position);
    }
  }

  /** `CreateAllNodes` creates each node of the factory once and each scanned assembly once per listing. */
  lemma AllNodesCount(g: Arenas, scanned: seq<nat>, r: NodeRef)
    ensures multiset(AllNodesLog(g, scanned))[NodeCreated(r)] == ExpectedCreations(g, scanned, r)
  {
    KindNodesCount(AssemblyKind, scanned, r);
    ArenaNodesCount(TypeKind, |g.types|, r);
    ArenaNodesCount(MethodKind, |g.methods|, r);
    ArenaNodesCount(ParameterKind, |g.parameters|, r);
    ArenaNodesCount(PropertyKind, |g.properties|, r);
  }

  /** Node creations after a clear stem from the node phase alone when the later phases draw only relationships. */
  lemma NodesAfterClear(nodes: Log, deps: Log, types: Log, r: NodeRef)
    requires forall e :: e in deps ==> DependsEdge(e)
    requires forall e :: e in types ==> TypeEdge(e)
    ensures multiset([Cleared] + nodes + deps + types)[NodeCreated(r)] == multiset(nodes)[NodeCreated(r)]
  {
    assert NodeCreated(r) !in deps && NodeCreated(r) !in types;
  }

  /** Every node of the factory is created exactly once, and a scanned assembly once per listing; nothing else is created. */
  lemma NodesCreatedOnce(g: Arenas, scanned: seq<nat>, r: NodeRef)
    ensures multiset(BuildLog(g, scanned))[NodeCreated(r)] == ExpectedCreations(g, scanned, r)
  {
    AllNodesCount(g, scanned, r);
    DependsPhase(g, scanned);
    TypesPhase(g);
    NodesAfterClear(AllNodesLog(g, scanned), SelectMany(scanned, DependsOf(g)), TypesLog(g), r);
  }
}
