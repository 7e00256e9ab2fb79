/**
 * Net.Scanner/GraphBuilder.cs: after every assembly is scanned, the factory's
 * node graph is written to a graph-store transaction as a sequence of calls:
 * clear, create every node, then the DEPENDS_ON edges of the scanned
 * assemblies, then the edges of every type. The transaction is the
 * append-only log of `Graph.Transaction`; the builder only reads the factory.
 */
module NetGraphBuilder {
  import opened Wrappers
  import opened Graph
  import opened Linq
  import opened CountedMap
  import opened NetModel
  import opened NetModelFactory

  /** Net.Scanner/Relationship.cs, and the two instantiation labels `GraphBuilder` uses besides. */
  const DefinesType := "DEFINES_TYPE"
  const DefinesMethod := "DEFINES_METHOD"
  const DefinesProperty := "DEFINES_PROPERTY"
  const DefinesParameter := "DEFINES_PARAMETER"
  const DefinesGenericTypeArg := "DEFINES_GENERIC_TYPE_ARG"
  const DefinesGenericMethodArg := "DEFINES_GENERIC_METHOD_ARG"
  const ExtendsKind := "EXTENDS"
  const Implements := "IMPLEMENTS"
  const DependsOn := "DEPENDS_ON"
  const Returns := "RETURNS"
  const HasType := "HAS_TYPE"
  const HasAttribute := "HAS_ATTRIBUTE"
  const InstantiatesGenericType := "INSTANTIATES_GENERIC_TYPE"
  const HasTypeArgument := "HAS_TYPE_ARGUMENT"

  datatype NodeKind = AssemblyKind | TypeKind | MethodKind | ParameterKind | PropertyKind

  /** A node handed to the transaction: a position in the arena of its kind, or `null`. */
  datatype NodeRef = Ref(kind: NodeKind, position: nat) | NoNode

  type Log = seq<Event<NodeRef>>

  /** The node records of the factory's arenas, as the builder reads them. */
  datatype Arenas = Arenas(
    assemblies: seq<NetAssembly>,
    types: seq<NetType>,
    methods: seq<NetMethod>,
    parameters: seq<NetMethodParameter>,
    properties: seq<NetProperty>)

  function Data<D>(nodes: seq<Node<int, D>>): (ds: seq<D>)
    ensures |ds| == |nodes| && forall i :: 0 <= i < |nodes| ==> ds[i] == nodes[i].data
  {
    seq(|nodes|, i requires 0 <= i < |nodes| => nodes[i].data)
  }

  function ArenasOf(f: ModelFactory): (g: Arenas)
    reads f.assemblyMap, f.typeMap, f.methodMap, f.parameterMap, f.propertyMap
    ensures |g.types| == |f.typeMap.nodes| && |g.methods| == |f.methodMap.nodes|
    ensures |g.parameters| == |f.parameterMap.nodes| && |g.properties| == |f.propertyMap.nodes|
  {
    Arenas(Data(f.assemblyMap.nodes), Data(f.typeMap.nodes), Data(f.methodMap.nodes),
           Data(f.parameterMap.nodes), Data(f.propertyMap.nodes))
  }

  /** Following a reference: the record at a position, or a blank record for one outside the arena. */
  function AssemblyAt(g: Arenas, p: nat): NetAssembly { if p < |g.assemblies| then g.assemblies[p] else NewAssembly() }
  function TypeAt(g: Arenas, p: nat): NetType { if p < |g.types| then g.types[p] else NewType() }
  function MethodAt(g: Arenas, p: nat): NetMethod { if p < |g.methods| then g.methods[p] else NewMethod() }
  function ParameterAt(g: Arenas, p: nat): NetMethodParameter { if p < |g.parameters| then g.parameters[p] else NewMethodParameter() }
  function PropertyAt(g: Arenas, p: nat): NetProperty { if p < |g.properties| then g.properties[p] else NewProperty() }

  function Refs(kind: NodeKind, ps: seq<nat>): (rs: seq<NodeRef>)
    ensures |rs| == |ps| && forall i :: 0 <= i < |ps| ==> rs[i] == Ref(kind, ps[i])
  {
    seq(|ps|, i requires 0 <= i < |ps| => Ref(kind, ps[i]))
  }

  /** A nullable reference field passed to the transaction. */
  function OptRef(kind: NodeKind, p: Option<nat>): NodeRef
  {
    if p.Some? then Ref(kind, p.value) else NoNode
  }

  function Edge(from: NodeRef, to: NodeRef, kind: string): Event<NodeRef>
  {
    RelationshipCreated(from, to, kind)
  }

  function Created(r: NodeRef): Log { [NodeCreated(r)] }

  /** `CreateNodes`: one CreateNode per node, in order. */
  function NodesLog(refs: seq<NodeRef>): Log { SelectMany(refs, Created) }

  function EdgeFrom(from: NodeRef, kind: string): NodeRef -> Log
  {
    to => [Edge(from, to, kind)]
  }

  /** One relationship of `kind` from `from` to each target, in order. */
  function Edges(from: NodeRef, targets: seq<NodeRef>, kind: string): Log
  {
    SelectMany(targets, EdgeFrom(from, kind))
  }

  /** `CreateAllNodes`: the scanned assemblies, then every type, method, parameter and property of the factory. */
  function AllNodesLog(g: Arenas, scanned: seq<nat>): Log
  {
    NodesLog(Refs(AssemblyKind, scanned))
    + NodesLog(Refs(TypeKind, Positions(|g.types|)))
    + NodesLog(Refs(MethodKind, Positions(|g.methods|)))
    + NodesLog(Refs(ParameterKind, Positions(|g.parameters|)))
    + NodesLog(Refs(PropertyKind, Positions(|g.properties|)))
  }

  /** `ConnectAssemblyReferences`. */
  function DependsLog(g: Arenas, a: nat): Log
  {
    Edges(Ref(AssemblyKind, a), Refs(AssemblyKind, AssemblyAt(g, a).references), DependsOn)
  }

  function DependsOf(g: Arenas): nat -> Log { (a: nat) => DependsLog(g, a) }

  /** `ConnectTypeDefinition`. */
  function DefinitionLog(g: Arenas, t: nat): Log
  {
    var n := TypeAt(g, t);
    if n.assembly.Some? then [Edge(Ref(AssemblyKind, n.assembly.value), Ref(TypeKind, t), DefinesType)] else []
  }

  /** `ConnectBaseType`. */
  function BaseLog(g: Arenas, t: nat): Log
  {
    var n := TypeAt(g, t);
    if n.baseType.Some? then [Edge(Ref(TypeKind, t), Ref(TypeKind, n.baseType.value), ExtendsKind)] else []
  }

  function ImplementsOf(g: Arenas): nat -> seq<nat> { (i: nat) => TypeAt(g, i).implements }

  /** The base type's interfaces, then those of every listed interface: what an IMPLEMENTS edge must not repeat. */
  function BaseInterfaces(g: Arenas, t: nat): seq<nat>
  {
    var n := TypeAt(g, t);
    (if n.baseType.Some? then TypeAt(g, n.baseType.value).implements else [])
    + SelectMany(n.implements, ImplementsOf(g))
  }

  /** The interfaces `ConnectInterfaceImplementations` connects: `Implements.Except(BaseInterfaces)`. */
  function DirectInterfaces(g: Arenas, t: nat): seq<nat>
  {
    Except(TypeAt(g, t).implements, BaseInterfaces(g, t))
  }

  function ImplementsLog(g: Arenas, t: nat): Log
  {
    Edges(Ref(TypeKind, t), Refs(TypeKind, DirectInterfaces(g, t)), Implements)
  }

  /** `ConnectMethodParameters` for one parameter. */
  function ParameterLog(g: Arenas, m: nat, p: nat): Log
  {
    [Edge(Ref(MethodKind, m), Ref(ParameterKind, p), DefinesParameter),
     Edge(Ref(ParameterKind, p), OptRef(TypeKind, ParameterAt(g, p).parameterType), HasType)]
  }

  function ParameterOf(g: Arenas, m: nat): nat -> Log { (p: nat) => ParameterLog(g, m, p) }

  function ParametersLog(g: Arenas, m: nat): Log
  {
    SelectMany(MethodAt(g, m).parameters, ParameterOf(g, m))
  }

  function GenericMethodArgsLog(g: Arenas, m: nat): Log
  {
    Edges(Ref(MethodKind, m), Refs(TypeKind, MethodAt(g, m).genericParameters), DefinesGenericMethodArg)
  }

  /** `ConnectMethod`. */
  function MethodLog(g: Arenas, t: nat, m: nat): Log
  {
    [Edge(Ref(TypeKind, t), Ref(MethodKind, m), DefinesMethod),
     Edge(Ref(MethodKind, m), OptRef(TypeKind, MethodAt(g, m).returnType), Returns)]
    + ParametersLog(g, m) + GenericMethodArgsLog(g, m)
  }

  function MethodOf(g: Arenas, t: nat): nat -> Log { (m: nat) => MethodLog(g, t, m) }

  function MethodsLog(g: Arenas, t: nat): Log
  {
    SelectMany(TypeAt(g, t).methods, MethodOf(g, t))
  }

  /** `ConnectProperty`. */
  function PropertyLog(g: Arenas, t: nat, q: nat): Log
  {
    [Edge(Ref(TypeKind, t), Ref(PropertyKind, q), DefinesProperty),
     Edge(Ref(PropertyKind, q), OptRef(TypeKind, PropertyAt(g, q).propertyType), HasType)]
  }

  function PropertyOf(g: Arenas, t: nat): nat -> Log { (q: nat) => PropertyLog(g, t, q) }

  function PropertiesLog(g: Arenas, t: nat): Log
  {
    SelectMany(TypeAt(g, t).properties, PropertyOf(g, t))
  }

  function AttributesLog(g: Arenas, t: nat): Log
  {
    Edges(Ref(TypeKind, t), Refs(TypeKind, TypeAt(g, t).attributes), HasAttribute)
  }

  function GenericTypeArgsLog(g: Arenas, t: nat): Log
  {
    Edges(Ref(TypeKind, t), Refs(TypeKind, TypeAt(g, t).genericTypeArgs), DefinesGenericTypeArg)
  }

  /** `ConnectGenericTypeInstantiation`. */
  function InstantiationLog(g: Arenas, t: nat): Log
  {
    var n := TypeAt(g, t);
    if !n.isGenericTypeInstantiation then []
    else [Edge(Ref(TypeKind, t), OptRef(TypeKind, n.genericType), InstantiatesGenericType)]
         + Edges(Ref(TypeKind, t), Refs(TypeKind, n.genericTypeInstantiationArgs), HasTypeArgument)
  }

  /** The edges of the members and generic arguments of a type: the steps after the interfaces. */
  function MembersLog(g: Arenas, t: nat): Log
  {
    MethodsLog(g, t) + PropertiesLog(g, t) + AttributesLog(g, t) + GenericTypeArgsLog(g, t) + InstantiationLog(g, t)
  }

  /** The body of the `ConnectTypes` loop for one type. */
  function TypeLog(g: Arenas, t: nat): Log
  {
    DefinitionLog(g, t) + BaseLog(g, t) + ImplementsLog(g, t) + MembersLog(g, t)
  }

  function TypeOf(g: Arenas): nat -> Log { (t: nat) => TypeLog(g, t) }

  function TypesLog(g: Arenas): Log
  {
    SelectMany(Positions(|g.types|), TypeOf(g))
  }

  /** `Build`. */
  function BuildLog(g: Arenas, scanned: seq<nat>): Log
  {
    [Cleared] + AllNodesLog(g, scanned) + SelectMany(scanned, DependsOf(g)) + TypesLog(g)
  }

  lemma Appended<T>(e: seq<T>, a: seq<T>, b: seq<T>)
    ensures e + a + b == e + (a + b)
  {
  }

  class GraphBuilder {
    const factory: ModelFactory
    const tx: Transaction<NodeRef>

    constructor (factory: ModelFactory, tx: Transaction<NodeRef>)
      ensures this.factory == factory && this.tx == tx
    {
      this.factory := factory;
      this.tx := tx;
    }

    /** `Build`: the factory is read, never written, so one snapshot of it serves every step. */
    method Build(scanned: seq<nat>)
      modifies tx
      ensures tx.events == old(tx.events) + BuildLog(ArenasOf(factory), scanned)
    {
      var g := ArenasOf(factory);
      ghost var e0 := tx.events;
      tx.Clear();
      CreateAllNodes(g, scanned);
      Appended(e0, [Cleared], AllNodesLog(g, scanned));
      ghost var e1 := tx.events;
      for i := 0 to |scanned|
        invariant tx.events == e1 + SelectMany(scanned[..i], DependsOf(g))
      {
        ConnectAssemblyReferences(g, scanned[i]);
        SelectManyStep(scanned, DependsOf(g), i);
        Appended(e1, SelectMany(scanned[..i], DependsOf(g)), DependsLog(g, scanned[i]));
      }
      SelectManyAll(scanned, DependsOf(g));
      Appended(e0, [Cleared] + AllNodesLog(g, scanned), SelectMany(scanned, DependsOf(g)));
      ConnectTypes(g);
      Appended(e0, [Cleared] + AllNodesLog(g, scanned) + SelectMany(scanned, DependsOf(g)), TypesLog(g));
    }

    /** `CreateAllNodes`. */
    method CreateAllNodes(g: Arenas, scanned: seq<nat>)
      modifies tx
      ensures tx.events == old(tx.events) + AllNodesLog(g, scanned)
    {
      ghost var e0 := tx.events;
      ghost var assemblies := NodesLog(Refs(AssemblyKind, scanned));
      ghost var types := NodesLog(Refs(TypeKind, Positions(|g.types|)));
      ghost var methods := NodesLog(Refs(MethodKind, Positions(|g.methods|)));
      ghost var parameters := NodesLog(Refs(ParameterKind, Positions(|g.parameters|)));
      CreateNodes(Refs(AssemblyKind, scanned));
      CreateNodes(Refs(TypeKind, Positions(|g.types|)));
      Appended(e0, assemblies, types);
      CreateNodes(Refs(MethodKind, Positions(|g.methods|)));
      Appended(e0, assemblies + types, methods);
      CreateNodes(Refs(ParameterKind, Positions(|g.parameters|)));
      Appended(e0, assemblies + types + methods, parameters);
      CreateNodes(Refs(PropertyKind, Positions(|g.properties|)));
      Appended(e0, assemblies + types + methods + parameters, NodesLog(Refs(PropertyKind, Positions(|g.properties|))));
    }

    /** `CreateNodes`. */
    method CreateNodes(refs: seq<NodeRef>)
      modifies tx
      ensures tx.events == old(tx.events) + NodesLog(refs)
    {
      for i := 0 to |refs|
        invariant tx.events == old(tx.events) + SelectMany(refs[..i], Created)
      {
        tx.CreateNode(refs[i]);
        SelectManyStep(refs, Created, i);
      }
      SelectManyAll(refs, Created);
    }

    /** The `foreach` that every connecting step runs over a list of targets. */
    method CreateEdges(from: NodeRef, targets: seq<NodeRef>, kind: string)
      modifies tx
      ensures tx.events == old(tx.events) + Edges(from, targets, kind)
    {
      for i := 0 to |targets|
        invariant tx.events == old(tx.events) + SelectMany(targets[..i], EdgeFrom(from, kind))
      {
        tx.CreateRelationship(from, targets[i], kind);
        SelectManyStep(targets, EdgeFrom(from, kind), i);
      }
      SelectManyAll(targets, EdgeFrom(from, kind));
    }

    /** `ConnectAssemblyReferences`. */
    method ConnectAssemblyReferences(g: Arenas, a: nat)
      modifies tx
      ensures tx.events == old(tx.events) + DependsLog(g, a)
    {
      CreateEdges(Ref(AssemblyKind, a), Refs(AssemblyKind, AssemblyAt(g, a).references), DependsOn);
    }

    /** `ConnectTypes`: every type of the factory, in creation order. */
    method ConnectTypes(g: Arenas)
      modifies tx
      ensures tx.events == old(tx.events) + TypesLog(g)
    {
      var types := Positions(|g.types|);
      for i := 0 to |types|
        invariant tx.events == old(tx.events) + SelectMany(types[..i], TypeOf(g))
      {
        ConnectType(g, types[i]);
        SelectManyStep(types, TypeOf(g), i);
        Appended(old(tx.events), SelectMany(types[..i], TypeOf(g)), TypeLog(g, types[i]));
      }
      SelectManyAll(types, TypeOf(g));
    }

    /** The body of the `ConnectTypes` loop. */
    method ConnectType(g: Arenas, t: nat)
      modifies tx
      ensures tx.events == old(tx.events) + TypeLog(g, t)
    {
      ghost var e0 := tx.events;
      ConnectTypeDefinition(g, t);
      ConnectBaseType(g, t);
      Appended(e0, DefinitionLog(g, t), BaseLog(g, t));
      ConnectInterfaceImplementations(g, t);
      Appended(e0, DefinitionLog(g, t) + BaseLog(g, t), ImplementsLog(g, t));
      ConnectMembers(g, t);
      Appended(e0, DefinitionLog(g, t) + BaseLog(g, t) + ImplementsLog(g, t), MembersLog(g, t));
    }

    /** The steps of the `ConnectTypes` loop after the interfaces. */
    method ConnectMembers(g: Arenas, t: nat)
      modifies tx
      ensures tx.events == old(tx.events) + MembersLog(g, t)
    {
      ghost var e0 := tx.events;
      ConnectMethods(g, t);
      ConnectProperties(g, t);
      Appended(e0, MethodsLog(g, t), PropertiesLog(g, t));
      ConnectAttributes(g, t);
      Appended(e0, MethodsLog(g, t) + PropertiesLog(g, t), AttributesLog(g, t));
      ConnectGenericTypeArgs(g, t);
      Appended(e0, MethodsLog(g, t) + PropertiesLog(g, t) + AttributesLog(g, t), GenericTypeArgsLog(g, t));
      ConnectGenericTypeInstantiation(g, t);
      Appended(e0, MethodsLog(g, t) + PropertiesLog(g, t) + AttributesLog(g, t) + GenericTypeArgsLog(g, t),
               InstantiationLog(g, t));
    }

    method ConnectTypeDefinition(g: Arenas, t: nat)
      modifies tx
      ensures tx.events == old(tx.events) + DefinitionLog(g, t)
    {
      var assembly := TypeAt(g, t).assembly;
      if assembly.None? {
        return;
      }
      tx.CreateRelationship(Ref(AssemblyKind, assembly.value), Ref(TypeKind, t), DefinesType);
    }

    method ConnectBaseType(g: Arenas, t: nat)
      modifies tx
      ensures tx.events == old(tx.events) + BaseLog(g, t)
    {
      var baseType := TypeAt(g, t).baseType;
      if baseType.Some? {
        tx.CreateRelationship(Ref(TypeKind, t), Ref(TypeKind, baseType.value), ExtendsKind);
      }
    }

    method ConnectInterfaceImplementations(g: Arenas, t: nat)
      modifies tx
      ensures tx.events == old(tx.events) + ImplementsLog(g, t)
    {
      var interfaces := DirectInterfaces(g, t);
      CreateEdges(Ref(TypeKind, t), Refs(TypeKind, interfaces), Implements);
    }

    method ConnectAttributes(g: Arenas, t: nat)
      modifies tx
      ensures tx.events == old(tx.events) + AttributesLog(g, t)
    {
      CreateEdges(Ref(TypeKind, t), Refs(TypeKind, TypeAt(g, t).attributes), HasAttribute);
    }

    method ConnectMethods(g: Arenas, t: nat)
      modifies tx
      ensures tx.events == old(tx.events) + MethodsLog(g, t)
    {
      var methods := TypeAt(g, t).methods;
      for i := 0 to |methods|
        invariant tx.events == old(tx.events) + SelectMany(methods[..i], MethodOf(g, t))
      {
        ConnectMethod(g, t, methods[i]);
        SelectManyStep(methods, MethodOf(g, t), i);
        Appended(old(tx.events), SelectMany(methods[..i], MethodOf(g, t)), MethodLog(g, t, methods[i]));
      }
      SelectManyAll(methods, MethodOf(g, t));
    }

    method ConnectMethod(g: Arenas, t: nat, m: nat)
      modifies tx
      ensures tx.events == old(tx.events) + MethodLog(g, t, m)
    {
      tx.CreateRelationship(Ref(TypeKind, t), Ref(MethodKind, m), DefinesMethod);
      tx.CreateRelationship(Ref(MethodKind, m), OptRef(TypeKind, MethodAt(g, m).returnType), Returns);
      ConnectMethodParameters(g, m);
      ConnectGenericMethodParameters(g, m);
    }

    method ConnectMethodParameters(g: Arenas, m: nat)
      modifies tx
      ensures tx.events == old(tx.events) + ParametersLog(g, m)
    {
      var parameters := MethodAt(g, m).parameters;
      for i := 0 to |parameters|
        invariant tx.events == old(tx.events) + SelectMany(parameters[..i], ParameterOf(g, m))
      {
        var p := parameters[i];
        tx.CreateRelationship(Ref(MethodKind, m), Ref(ParameterKind, p), DefinesParameter);
        tx.CreateRelationship(Ref(ParameterKind, p), OptRef(TypeKind, ParameterAt(g, p).parameterType), HasType);
        SelectManyStep(parameters, ParameterOf(g, m), i);
      }
      SelectManyAll(parameters, ParameterOf(g, m));
    }

    method ConnectGenericMethodParameters(g: Arenas, m: nat)
      modifies tx
      ensures tx.events == old(tx.events) + GenericMethodArgsLog(g, m)
    {
      CreateEdges(Ref(MethodKind, m), Refs(TypeKind, MethodAt(g, m).genericParameters), DefinesGenericMethodArg);
    }

    method ConnectGenericTypeArgs(g: Arenas, t: nat)
      modifies tx
      ensures tx.events == old(tx.events) + GenericTypeArgsLog(g, t)
    {
      CreateEdges(Ref(TypeKind, t), Refs(TypeKind, TypeAt(g, t).genericTypeArgs), DefinesGenericTypeArg);
    }

    method ConnectGenericTypeInstantiation(g: Arenas, t: nat)
      modifies tx
      ensures tx.events == old(tx.events) + InstantiationLog(g, t)
    {
      var n := TypeAt(g, t);
      if !n.isGenericTypeInstantiation {
        return;
      }
      tx.CreateRelationship(Ref(TypeKind, t), OptRef(TypeKind, n.genericType), InstantiatesGenericType);
      CreateEdges(Ref(TypeKind, t), Refs(TypeKind, n.genericTypeInstantiationArgs), HasTypeArgument);
    }

    method ConnectProperties(g: Arenas, t: nat)
      modifies tx
      ensures tx.events == old(tx.events) + PropertiesLog(g, t)
    {
      var properties := TypeAt(g, t).properties;
      for i := 0 to |properties|
        invariant tx.events == old(tx.events) + SelectMany(properties[..i], PropertyOf(g, t))
      {
        var q := properties[i];
        tx.CreateRelationship(Ref(TypeKind, t), Ref(PropertyKind, q), DefinesProperty);
        tx.CreateRelationship(Ref(PropertyKind, q), OptRef(TypeKind, PropertyAt(g, q).propertyType), HasType);
        SelectManyStep(properties, PropertyOf(g, t), i);
      }
      SelectManyAll(properties, PropertyOf(g, t));
    }
  }
}
