/**
 * DotnetScanner/Model/ModelFactory.cs: the keyed variant of the older
 * scanner's factory. It holds three counted maps (see CountedMap) over the
 * records of Net.Model, keyed by an assembly name, a `TypeKey` and a method
 * name, and names every node it hands out after its key.
 */
module DotnetModelFactory {
  import opened Wrappers
  import opened Graph
  import opened CountedMap
  import NetTypeKeys
  import NetModel

  /** DotnetScanner/Model/AssemblyKey.cs; the name may be null. */
  datatype AssemblyKey = AssemblyKey(name: Option<string>)

  /** DotnetScanner/Model/MethodKey.cs: a method is keyed by its name alone. */
  datatype MethodKey = MethodKey(name: Option<string>)

  class ModelFactory {
    const assemblyMap: ModelMap<AssemblyKey, NetModel.NetAssembly>
    const typeMap: ModelMap<NetTypeKeys.TypeKey, NetModel.NetType>
    const methodMap: ModelMap<MethodKey, NetModel.NetMethod>

    predicate Separate()
    {
      assemblyMap as object != typeMap && assemblyMap as object != methodMap && typeMap as object != methodMap
    }

    ghost predicate Valid()
      reads assemblyMap, typeMap, methodMap
    {
      Separate() && assemblyMap.Valid() && typeMap.Valid() && methodMap.Valid()
    }

    /** `new ModelFactory()`: three empty maps whose counters stand where the static `_nextId` fields do. */
    constructor (assemblyIds: int, typeIds: int, methodIds: int)
      ensures Valid() && fresh(assemblyMap) && fresh(typeMap) && fresh(methodMap)
      ensures assemblyMap.next == assemblyIds && typeMap.next == typeIds && methodMap.next == methodIds
      ensures assemblyMap.nodes == [] && typeMap.nodes == [] && methodMap.nodes == []
    {
      assemblyMap := new ModelMap(assemblyIds);
      typeMap := new ModelMap(typeIds);
      methodMap := new ModelMap(methodIds);
    }

    /** `CreateAssemblyModel`: intern the key and set `Name := key.Name`, on a hit too. */
    method CreateAssemblyModel(key: AssemblyKey) returns (i: nat)
      requires Valid()
      modifies assemblyMap
      ensures Valid() && unchanged(typeMap) && unchanged(methodMap)
      ensures i < |assemblyMap.nodes| && assemblyMap.keys[i] == key
      ensures old(key in assemblyMap.index) ==>
        && assemblyMap.keys == old(assemblyMap.keys) && i == old(assemblyMap.index[key])
        && assemblyMap.nodes == old(assemblyMap.nodes)[i := Node(old(assemblyMap.nodes[i].id),
                                                               old(assemblyMap.nodes[i].data).(name := key.name))]
      ensures old(key !in assemblyMap.index) ==>
        && assemblyMap.keys == old(assemblyMap.keys) + [key] && assemblyMap.next == old(assemblyMap.next) + 1
        && assemblyMap.nodes == old(assemblyMap.nodes) + [Node(old(assemblyMap.next), NetModel.NewAssembly().(name := key.name))]
    {
      ghost var hit, n0, next0 := key in assemblyMap.index, assemblyMap.nodes, assemblyMap.next;
      i := assemblyMap.Get(key, NetModel.NewAssembly());
      var model := assemblyMap.nodes[i].data;
      assemblyMap.Update(i, model.(name := key.name));
      if !hit {
        AppendThenWrite(n0, Node(next0, NetModel.NewAssembly()), Node(next0, NetModel.NewAssembly().(name := key.name)));
      }
    }

    /** `CreateTypeModel`: intern the key and set Name and Namespace from it, on a hit too. */
    method CreateTypeModel(key: NetTypeKeys.TypeKey) returns (i: nat)
      requires Valid()
      modifies typeMap
      ensures Valid() && unchanged(assemblyMap) && unchanged(methodMap)
      ensures i < |typeMap.nodes| && typeMap.keys[i] == key
      ensures typeMap.nodes[i].data.name == key.name && typeMap.nodes[i].data.namespace == key.namespace
      ensures old(key in typeMap.index) ==>
        && typeMap.keys == old(typeMap.keys) && i == old(typeMap.index[key])
        && typeMap.nodes == old(typeMap.nodes)[i := Node(old(typeMap.nodes[i].id),
                                                       old(typeMap.nodes[i].data).(name := key.name, namespace := key.namespace))]
      ensures old(key !in typeMap.index) ==>
        && typeMap.keys == old(typeMap.keys) + [key] && typeMap.next == old(typeMap.next) + 1
        && typeMap.nodes == old(typeMap.nodes) + [Node(old(typeMap.next), NetModel.NewType().(name := key.name, namespace := key.namespace))]
    {
      ghost var hit, n0, next0 := key in typeMap.index, typeMap.nodes, typeMap.next;
      i := typeMap.Get(key, NetModel.NewType());
      var model := typeMap.nodes[i].data;
      typeMap.Update(i, model.(name := key.name, namespace := key.namespace));
      if !hit {
        AppendThenWrite(n0, Node(next0, NetModel.NewType()), Node(next0, NetModel.NewType().(name := key.name, namespace := key.namespace)));
      }
    }

    /** `CreateMethodModel`: intern the key and set `Name := key.Name`, on a hit too. */
    method CreateMethodModel(key: MethodKey) returns (i: nat)
      requires Valid()
      modifies methodMap
      ensures Valid() && unchanged(assemblyMap) && unchanged(typeMap)
      ensures i < |methodMap.nodes| && methodMap.keys[i] == key
      ensures old(key in methodMap.index) ==>
        && methodMap.keys == old(methodMap.keys) && i == old(methodMap.index[key])
        && methodMap.nodes == old(methodMap.nodes)[i := Node(old(methodMap.nodes[i].id),
                                                           old(methodMap.nodes[i].data).(name := key.name))]
      ensures old(key !in methodMap.index) ==>
        && methodMap.keys == old(methodMap.keys) + [key] && methodMap.next == old(methodMap.next) + 1
        && methodMap.nodes == old(methodMap.nodes) + [Node(old(methodMap.next), NetModel.NewMethod().(name := key.name))]
    {
      ghost var hit, n0, next0 := key in methodMap.index, methodMap.nodes, methodMap.next;
      i := methodMap.Get(key, NetModel.NewMethod());
      var model := methodMap.nodes[i].data;
      methodMap.Update(i, model.(name := key.name));
      if !hit {
        AppendThenWrite(n0, Node(next0, NetModel.NewMethod()), Node(next0, NetModel.NewMethod().(name := key.name)));
      }
    }

    /** `GetAssemblyModels`: every interned assembly once, in insertion order. */
    function GetAssemblyModels(): (r: seq<nat>)
      reads assemblyMap
      ensures |r| == |assemblyMap.nodes| && forall p :: 0 <= p < |r| ==> r[p] == p
    {
      assemblyMap.Models()
    }

    /** `GetTypeModels`: every interned type once, in insertion order. */
    function GetTypeModels(): (r: seq<nat>)
      reads typeMap
      ensures |r| == |typeMap.nodes| && forall p :: 0 <= p < |r| ==> r[p] == p
    {
      typeMap.Models()
    }

    /** `GetMethodModels`: every interned method once, in insertion order. */
    function GetMethodModels(): (r: seq<nat>)
      reads methodMap
      ensures |r| == |methodMap.nodes| && forall p :: 0 <= p < |r| ==> r[p] == p
    {
      methodMap.Models()
    }
  }

  /**
   * Methods are keyed by name alone: two overloads, or two same-named methods
   * of different types, get one node, and the second scan writes over the first.
   */
  lemma OverloadsShareANode(factory: ModelFactory, name: Option<string>, i: nat, j: nat)
    requires factory.Valid() && i < |factory.methodMap.keys| && j < |factory.methodMap.keys|
    requires factory.methodMap.keys[i] == MethodKey(name) && factory.methodMap.keys[j] == MethodKey(name)
    ensures i == j
  {
    assert factory.methodMap.index[MethodKey(name)] == i;
  }
}
