/**
 * The newer scanner's `ModelFactory`: five identity maps, one per node kind.
 * A node is referred to by its position in the arena of its kind; a field write
 * on an interned node is an `Update*` call, so every holder of the position sees
 * it, as every holder of the C# reference does.
 */
module NetModelFactory {
  import opened Wrappers
  import opened Graph
  import opened CountedMap
  import opened NetTypeKeys
  import opened NetModel

  /** `keys1` is `keys0` with entries appended: positions handed out earlier keep their keys. */
  predicate Extends<K(==)>(keys0: seq<K>, keys1: seq<K>)
  {
    |keys0| <= |keys1| && keys1[..|keys0|] == keys0
  }

  /** No key is interned twice. */
  predicate Distinct<K(==)>(keys: seq<K>)
  {
    forall i, j :: 0 <= i < j < |keys| ==> keys[i] != keys[j]
  }

  /** A sequence without repeats splits into two without repeats and with no element in common. */
  lemma DistinctSplit<K>(a: seq<K>, b: seq<K>)
    requires Distinct(a + b)
    ensures Distinct(a) && Distinct(b) && forall x :: x in a ==> x !in b
  {
    forall i, j | 0 <= i < j < |a|
      ensures a[i] != a[j]
    {
      assert (a + b)[i] == a[i] && (a + b)[j] == a[j];
    }
    forall i, j | 0 <= i < j < |b|
      ensures b[i] != b[j]
    {
      assert (a + b)[|a| + i] == b[i] && (a + b)[|a| + j] == b[j];
    }
    forall x | x in a
      ensures x !in b
    {
      var i :| 0 <= i < |a| && a[i] == x;
      forall j | 0 <= j < |b|
        ensures b[j] != x
      {
        assert (a + b)[i] == a[i] && (a + b)[|a| + j] == b[j];
      }
    }
  }

  /**
   * How one type node may change while other nodes are scanned: only
   * `typeClass` (which may become GenericTypeArg when the key is among those
   * re-interned as generic arguments) and `displayName` (which may be reset
   * when the key is re-interned at all) move; every other field except the
   * key-determined name and namespace stays. Larger sets allow more.
   */
  predicate TypeEvolves(before: NetType, after: NetType, key: TypeKey, renamed: set<TypeKey>, retyped: set<TypeKey>)
  {
    && after.(typeClass := before.typeClass, displayName := before.displayName,
              name := before.name, namespace := before.namespace) == before
    && (after.typeClass == before.typeClass || (key in retyped && after.typeClass == GenericTypeArg))
    && (key !in renamed && key !in retyped ==> after.displayName == before.displayName)
  }

  /**
   * The type arena grows by appending; old nodes keep their ids and evolve as
   * `TypeEvolves` allows, and new nodes evolve the same way from `new NetType()`.
   */
  predicate TypesEvolve(
    keys0: seq<TypeKey>, nodes0: seq<Node<int, NetType>>,
    keys1: seq<TypeKey>, nodes1: seq<Node<int, NetType>>,
    renamed: set<TypeKey>, retyped: set<TypeKey>)
  {
    && |keys0| == |nodes0| && |keys1| == |nodes1|
    && Extends(keys0, keys1) && Distinct(keys1)
    && (forall i :: 0 <= i < |nodes0| ==> nodes1[i].id == nodes0[i].id)
    && (forall i :: 0 <= i < |nodes0| ==> TypeEvolves(nodes0[i].data, nodes1[i].data, keys1[i], renamed, retyped))
    && (forall i :: |nodes0| <= i < |nodes1| ==> TypeEvolves(NewType(), nodes1[i].data, keys1[i], renamed, retyped))
  }

  lemma TypesEvolveReflexive(keys: seq<TypeKey>, nodes: seq<Node<int, NetType>>)
    requires |keys| == |nodes| && Distinct(keys)
    ensures TypesEvolve(keys, nodes, keys, nodes, {}, {})
  {
    assert keys[..|keys|] == keys;
  }

  lemma TypesEvolveTransitive(
    k0: seq<TypeKey>, n0: seq<Node<int, NetType>>,
    k1: seq<TypeKey>, n1: seq<Node<int, NetType>>,
    k2: seq<TypeKey>, n2: seq<Node<int, NetType>>,
    r1: set<TypeKey>, t1: set<TypeKey>, r2: set<TypeKey>, t2: set<TypeKey>)
    requires TypesEvolve(k0, n0, k1, n1, r1, t1)
    requires TypesEvolve(k1, n1, k2, n2, r2, t2)
    ensures TypesEvolve(k0, n0, k2, n2, r1 + r2, t1 + t2)
  {
    assert k2[..|k0|] == k1[..|k0|];
    forall i | 0 <= i < |n0|
      ensures TypeEvolves(n0[i].data, n2[i].data, k2[i], r1 + r2, t1 + t2)
    {
      assert k1[i] == k2[i];
    }
    forall i | |n0| <= i < |n1|
      ensures TypeEvolves(NewType(), n2[i].data, k2[i], r1 + r2, t1 + t2)
    {
      assert k1[i] == k2[i];
    }
    forall i | |n1| <= i < |n2|
      ensures TypeEvolves(NewType(), n2[i].data, k2[i], r1 + r2, t1 + t2)
    {
    }
  }

  /** Allowing more keys to be renamed or retyped keeps an evolution an evolution. */
  lemma TypesEvolveMonotone(
    k0: seq<TypeKey>, n0: seq<Node<int, NetType>>, k1: seq<TypeKey>, n1: seq<Node<int, NetType>>,
    r: set<TypeKey>, t: set<TypeKey>, r': set<TypeKey>, t': set<TypeKey>)
    requires TypesEvolve(k0, n0, k1, n1, r, t) && r <= r' && t <= t'
    ensures TypesEvolve(k0, n0, k1, n1, r', t')
  {
  }

  /**
   * `TypesEvolve` for every node but the one at position `p`, which a type
   * scan writes freely.
   */
  predicate TypesEvolveBut(
    keys0: seq<TypeKey>, nodes0: seq<Node<int, NetType>>,
    keys1: seq<TypeKey>, nodes1: seq<Node<int, NetType>>,
    renamed: set<TypeKey>, retyped: set<TypeKey>, p: nat)
  {
    && |keys0| == |nodes0| && |keys1| == |nodes1|
    && Extends(keys0, keys1) && Distinct(keys1)
    && (forall i :: 0 <= i < |nodes0| ==> nodes1[i].id == nodes0[i].id)
    && (forall i :: 0 <= i < |nodes0| && i != p ==> TypeEvolves(nodes0[i].data, nodes1[i].data, keys1[i], renamed, retyped))
    && (forall i :: |nodes0| <= i < |nodes1| && i != p ==> TypeEvolves(NewType(), nodes1[i].data, keys1[i], renamed, retyped))
  }

  /** An evolution followed by a smaller one, with `p` exempt throughout. */
  lemma TypesEvolveButStep(
    k0: seq<TypeKey>, n0: seq<Node<int, NetType>>,
    k1: seq<TypeKey>, n1: seq<Node<int, NetType>>,
    k2: seq<TypeKey>, n2: seq<Node<int, NetType>>,
    renamed: set<TypeKey>, retyped: set<TypeKey>, r: set<TypeKey>, t: set<TypeKey>, p: nat)
    requires TypesEvolveBut(k0, n0, k1, n1, renamed, retyped, p)
    requires TypesEvolve(k1, n1, k2, n2, r, t) && r <= renamed && t <= retyped
    ensures TypesEvolveBut(k0, n0, k2, n2, renamed, retyped, p)
  {
    assert k2[..|k0|] == k1[..|k0|];
    forall i | 0 <= i < |n1|
      ensures k2[i] == k1[i]
    {
      ExtendsKeeps(k1, k2, i);
    }
  }

  /** A write on the exempt node keeps the evolution of the others. */
  lemma TypesEvolveButWrite(
    k0: seq<TypeKey>, n0: seq<Node<int, NetType>>, k1: seq<TypeKey>, n1: seq<Node<int, NetType>>,
    renamed: set<TypeKey>, retyped: set<TypeKey>, p: nat, data: NetType)
    requires TypesEvolveBut(k0, n0, k1, n1, renamed, retyped, p) && p < |n1|
    ensures TypesEvolveBut(k0, n0, k1, n1[p := Node(n1[p].id, data)], renamed, retyped, p)
  {
  }

  /** The interning that starts a type scan: an evolution, so one with `p` exempt. */
  lemma TypesEvolveButFrom(
    k0: seq<TypeKey>, n0: seq<Node<int, NetType>>, k1: seq<TypeKey>, n1: seq<Node<int, NetType>>,
    renamed: set<TypeKey>, retyped: set<TypeKey>, p: nat)
    requires TypesEvolve(k0, n0, k1, n1, renamed, retyped)
    ensures TypesEvolveBut(k0, n0, k1, n1, renamed, retyped, p)
  {
  }

  /** `positions` refer, in order, to the nodes interned under `expected`. */
  predicate RefersTo<K(==)>(keys: seq<K>, positions: seq<nat>, expected: seq<K>)
  {
    |positions| == |expected|
    && forall j :: 0 <= j < |positions| ==> positions[j] < |keys| && keys[positions[j]] == expected[j]
  }

  /** Appending to an arena keeps every reference into it. */
  lemma RefersToExtended<K>(keys0: seq<K>, keys1: seq<K>, positions: seq<nat>, expected: seq<K>)
    requires RefersTo(keys0, positions, expected) && Extends(keys0, keys1)
    ensures RefersTo(keys1, positions, expected)
  {
    forall j | 0 <= j < |positions|
      ensures keys1[positions[j]] == expected[j]
    {
      assert keys1[..|keys0|][positions[j]] == keys0[positions[j]];
    }
  }

  /** One more position appended to a list: it refers to one more key. */
  lemma RefersToSnoc<K>(keys0: seq<K>, keys1: seq<K>, positions: seq<nat>, expected: seq<K>, p: nat)
    requires RefersTo(keys0, positions, expected) && Extends(keys0, keys1) && p < |keys1|
    ensures RefersTo(keys1, positions + [p], expected + [keys1[p]])
  {
    RefersToExtended(keys0, keys1, positions, expected);
  }

  /**
   * The step of a loop building `positions` for `expected[..j]` in an arena
   * that grows from `start`: one more position, one more key.
   */
  lemma RefersToStep<K>(start: seq<K>, keys0: seq<K>, keys1: seq<K>, positions: seq<nat>, expected: seq<K>, j: nat, p: nat)
    requires Extends(start, keys0) && Extends(keys0, keys1) && j < |expected|
    requires RefersTo(keys0, positions, expected[..j]) && p < |keys1| && keys1[p] == expected[j]
    ensures Extends(start, keys1) && RefersTo(keys1, positions + [p], expected[..j + 1])
  {
    ExtendsTransitive(start, keys0, keys1);
    RefersToSnoc(keys0, keys1, positions, expected[..j], p);
    assert expected[..j + 1] == expected[..j] + [expected[j]];
  }

  /** A loop that went through all of `expected` refers to all of it. */
  lemma RefersToAll<K>(keys: seq<K>, positions: seq<nat>, expected: seq<K>)
    requires RefersTo(keys, positions, expected[..|expected|])
    ensures RefersTo(keys, positions, expected)
  {
    assert expected[..|expected|] == expected;
  }

  /** A position handed out before the extension keeps its key. */
  lemma ExtendsKeeps<K>(keys0: seq<K>, keys1: seq<K>, p: nat)
    requires Extends(keys0, keys1) && p < |keys0|
    ensures p < |keys1| && keys1[p] == keys0[p]
  {
    assert keys1[..|keys0|][p] == keys0[p];
  }

  /** An arena a call leaves alone extends itself. */
  lemma ExtendsReflexive<K>(keys: seq<K>)
    ensures Extends(keys, keys)
  {
    assert keys[..|keys|] == keys;
  }

  /** Extension is transitive. */
  lemma ExtendsTransitive<K>(keys0: seq<K>, keys1: seq<K>, keys2: seq<K>)
    requires Extends(keys0, keys1) && Extends(keys1, keys2)
    ensures Extends(keys0, keys2)
  {
    assert keys2[..|keys0|] == keys2[..|keys1|][..|keys0|];
  }

  /** `nodes1` keeps every node of `nodes0` except the one at `q`, and may append. */
  predicate KeptBut<D(==)>(nodes0: seq<Node<int, D>>, nodes1: seq<Node<int, D>>, q: nat)
  {
    |nodes0| <= |nodes1| && forall i :: 0 <= i < |nodes0| && i != q ==> nodes1[i] == nodes0[i]
  }

  /** Writing the excepted node keeps the others. */
  lemma KeptButWrite<D>(nodes0: seq<Node<int, D>>, nodes1: seq<Node<int, D>>, q: nat, node: Node<int, D>)
    requires KeptBut(nodes0, nodes1, q) && q < |nodes1|
    ensures KeptBut(nodes0, nodes1[q := node], q)
  {
  }

  lemma KeptButTransitive<D>(nodes0: seq<Node<int, D>>, nodes1: seq<Node<int, D>>, nodes2: seq<Node<int, D>>, q: nat)
    requires KeptBut(nodes0, nodes1, q) && KeptBut(nodes1, nodes2, q)
    ensures KeptBut(nodes0, nodes2, q)
  {
  }

  /** Every type node carries its key's name and namespace. */
  ghost predicate TypesNamed(keys: seq<TypeKey>, nodes: seq<Node<int, NetType>>)
  {
    |keys| == |nodes|
    && forall i :: 0 <= i < |nodes| ==> nodes[i].data.name == keys[i].name && nodes[i].data.namespace == keys[i].namespace
  }

  /** Interning a type (hit or miss) and naming it after its key keeps the arena named and distinct. */
  lemma TypeInterned(k0: seq<TypeKey>, n0: seq<Node<int, NetType>>, hit: bool, key: TypeKey, i: nat, node: Node<int, NetType>)
    requires TypesNamed(k0, n0) && Distinct(k0)
    requires node.data.name == key.name && node.data.namespace == key.namespace
    requires hit ==> i < |k0| && k0[i] == key
    requires !hit ==> key !in k0 && i == |k0|
    ensures hit ==> TypesNamed(k0, n0[i := node]) && Distinct(k0)
    ensures !hit ==> TypesNamed(k0 + [key], n0 + [node]) && Distinct(k0 + [key])
  {
  }

  /** A write on one interned type, evolving it as `TypeEvolves` allows. */
  lemma TypesEvolveByWrite(keys: seq<TypeKey>, nodes: seq<Node<int, NetType>>, i: nat, data: NetType,
                           renamed: set<TypeKey>, retyped: set<TypeKey>)
    requires |keys| == |nodes| && Distinct(keys) && i < |nodes|
    requires TypeEvolves(nodes[i].data, data, keys[i], renamed, retyped)
    ensures TypesEvolve(keys, nodes, keys, nodes[i := Node(nodes[i].id, data)], renamed, retyped)
  {
    assert keys[..|keys|] == keys;
  }

  /** A miss appending a node evolved from `new NetType()`. */
  lemma TypesEvolveByAppend(keys: seq<TypeKey>, nodes: seq<Node<int, NetType>>, key: TypeKey, node: Node<int, NetType>,
                            renamed: set<TypeKey>, retyped: set<TypeKey>)
    requires |keys| == |nodes| && Distinct(keys) && key !in keys
    requires TypeEvolves(NewType(), node.data, key, renamed, retyped)
    ensures TypesEvolve(keys, nodes, keys + [key], nodes + [node], renamed, retyped)
  {
    assert (keys + [key])[..|keys|] == keys;
    assert (keys + [key])[|keys|] == key;
  }

  class ModelFactory {
    const assemblyMap: ModelMap<AssemblyKey, NetAssembly>
    const typeMap: ModelMap<TypeKey, NetType>
    const methodMap: ModelMap<MethodKey, NetMethod>
    const parameterMap: ModelMap<MethodParameterKey, NetMethodParameter>
    const propertyMap: ModelMap<PropertyKey, NetProperty>

    /** Every assembly node is named after its key. */
    ghost predicate AssembliesValid()
      reads assemblyMap
    {
      && assemblyMap.Valid()
      && forall i :: 0 <= i < |assemblyMap.nodes| ==> assemblyMap.nodes[i].data.name == Some(assemblyMap.keys[i].name)
    }

    /** Every type node carries its key's name and namespace. */
    ghost predicate TypesValid()
      reads typeMap
    {
      typeMap.Valid() && Distinct(typeMap.keys) && TypesNamed(typeMap.keys, typeMap.nodes)
    }

    ghost predicate MethodsValid()
      reads methodMap
    {
      && methodMap.Valid()
      && forall i :: 0 <= i < |methodMap.nodes| ==> methodMap.nodes[i].data.name == Some(methodMap.keys[i].name)
    }

    ghost predicate ParametersValid()
      reads parameterMap
    {
      && parameterMap.Valid()
      && forall i :: 0 <= i < |parameterMap.nodes| ==> parameterMap.nodes[i].data.name == Some(parameterMap.keys[i].name)
    }

    ghost predicate PropertiesValid()
      reads propertyMap
    {
      && propertyMap.Valid()
      && forall i :: 0 <= i < |propertyMap.nodes| ==> propertyMap.nodes[i].data.name == Some(propertyMap.keys[i].name)
    }

    /** The five maps are five objects: writing one leaves the others alone. */
    predicate Separate()
    {
      && assemblyMap as object != typeMap && assemblyMap as object != methodMap
      && assemblyMap as object != parameterMap && assemblyMap as object != propertyMap
      && typeMap as object != methodMap && typeMap as object != parameterMap && typeMap as object != propertyMap
      && methodMap as object != parameterMap && methodMap as object != propertyMap
      && parameterMap as object != propertyMap
    }

    ghost predicate Valid()
      reads assemblyMap, typeMap, methodMap, parameterMap, propertyMap
    {
      Separate() && AssembliesValid() && TypesValid() && MethodsValid() && ParametersValid() && PropertiesValid()
    }

    /**
     * `new ModelFactory()`: five empty maps whose counters start where the
     * static `_nextId` fields stand.
     */
    constructor (assemblyIds: int, typeIds: int, methodIds: int, parameterIds: int, propertyIds: int)
      ensures Valid()
      ensures fresh(assemblyMap) && fresh(typeMap) && fresh(methodMap) && fresh(parameterMap) && fresh(propertyMap)
      ensures assemblyMap.next == assemblyIds && typeMap.next == typeIds && methodMap.next == methodIds
      ensures parameterMap.next == parameterIds && propertyMap.next == propertyIds
      ensures assemblyMap.nodes == [] && typeMap.nodes == [] && methodMap.nodes == []
      ensures parameterMap.nodes == [] && propertyMap.nodes == []
    {
      assemblyMap := new ModelMap(assemblyIds);
      typeMap := new ModelMap(typeIds);
      methodMap := new ModelMap(methodIds);
      parameterMap := new ModelMap(parameterIds);
      propertyMap := new ModelMap(propertyIds);
    }

    /** `CreateAssemblyModel`: intern the key and set `Name := key.Name`. */
    method CreateAssemblyModel(key: AssemblyKey) returns (i: nat)
      requires AssembliesValid()
      modifies assemblyMap
      ensures AssembliesValid()
      ensures i < |assemblyMap.nodes| && assemblyMap.keys[i] == key
      ensures old(key in assemblyMap.index) ==>
        assemblyMap.keys == old(assemblyMap.keys) && assemblyMap.nodes == old(assemblyMap.nodes)
      ensures old(key !in assemblyMap.index) ==>
        && assemblyMap.keys == old(assemblyMap.keys) + [key]
        && assemblyMap.nodes == old(assemblyMap.nodes) + [Node(old(assemblyMap.next), NewAssembly().(name := Some(key.name)))]
    {
      ghost var hit, n0, next0 := key in assemblyMap.index, assemblyMap.nodes, assemblyMap.next;
      i := assemblyMap.Get(key, NewAssembly());
      var model := assemblyMap.nodes[i].data;
      assemblyMap.Update(i, model.(name := Some(key.name)));
      if hit {
        WriteSame(n0, i);
      } else {
        AppendThenWrite(n0, Node(next0, NewAssembly()), Node(next0, NewAssembly().(name := Some(key.name))));
      }
    }

    /** `CreateTypeModel`: intern the key and set Name, DisplayName and Namespace from it, on a hit too. */
    method CreateTypeModel(key: TypeKey) returns (i: nat)
      requires TypesValid()
      modifies typeMap
      ensures TypesValid()
      ensures i < |typeMap.nodes| && typeMap.keys[i] == key
      ensures old(key in typeMap.index) ==>
        && typeMap.keys == old(typeMap.keys)
        && typeMap.nodes == old(typeMap.nodes)[i := Node(old(typeMap.nodes[i].id), old(typeMap.nodes[i].data).(displayName := key.name))]
      ensures old(key !in typeMap.index) ==>
        && typeMap.keys == old(typeMap.keys) + [key]
        && typeMap.nodes == old(typeMap.nodes)
             + [Node(old(typeMap.next), NewType().(name := key.name, displayName := key.name, namespace := key.namespace))]
      ensures TypesEvolve(old(typeMap.keys), old(typeMap.nodes), typeMap.keys, typeMap.nodes, {key}, {})
    {
      ghost var hit, k0, n0, next0 := key in typeMap.index, typeMap.keys, typeMap.nodes, typeMap.next;
      i := typeMap.Get(key, NewType());
      var model := typeMap.nodes[i].data;
      typeMap.Update(i, model.(name := key.name, displayName := key.name, namespace := key.namespace));
      if hit {
        assert model.name == key.name && model.namespace == key.namespace;
        TypeInterned(k0, n0, hit, key, i, typeMap.nodes[i]);
        TypesEvolveByWrite(k0, n0, i, model.(displayName := key.name), {key}, {});
      } else {
        var node := Node(next0, NewType().(name := key.name, displayName := key.name, namespace := key.namespace));
        AppendThenWrite(n0, Node(next0, NewType()), node);
        TypeInterned(k0, n0, hit, key, i, node);
        TypesEvolveByAppend(k0, n0, key, node, {key}, {});
      }
    }

    /** `CreateMethodModel`: intern the key and set `Name := key.Name`. */
    method CreateMethodModel(key: MethodKey) returns (i: nat)
      requires MethodsValid()
      modifies methodMap
      ensures MethodsValid()
      ensures i < |methodMap.nodes| && methodMap.keys[i] == key
      ensures old(key in methodMap.index) ==>
        methodMap.keys == old(methodMap.keys) && methodMap.nodes == old(methodMap.nodes)
      ensures old(key !in methodMap.index) ==>
        && methodMap.keys == old(methodMap.keys) + [key]
        && methodMap.nodes == old(methodMap.nodes) + [Node(old(methodMap.next), NewMethod().(name := Some(key.name)))]
    {
      ghost var hit, n0, next0 := key in methodMap.index, methodMap.nodes, methodMap.next;
      i := methodMap.Get(key, NewMethod());
      var model := methodMap.nodes[i].data;
      methodMap.Update(i, model.(name := Some(key.name)));
      if hit {
        WriteSame(n0, i);
      } else {
        AppendThenWrite(n0, Node(next0, NewMethod()), Node(next0, NewMethod().(name := Some(key.name))));
      }
    }

    /** `CreateMethodParameter`: intern the key and set `Name := key.Name`. */
    method CreateMethodParameter(key: MethodParameterKey) returns (i: nat)
      requires ParametersValid()
      modifies parameterMap
      ensures ParametersValid()
      ensures i < |parameterMap.nodes| && parameterMap.keys[i] == key
      ensures old(key in parameterMap.index) ==>
        parameterMap.keys == old(parameterMap.keys) && parameterMap.nodes == old(parameterMap.nodes)
      ensures old(key !in parameterMap.index) ==>
        && parameterMap.keys == old(parameterMap.keys) + [key]
        && parameterMap.nodes == old(parameterMap.nodes)
             + [Node(old(parameterMap.next), NewMethodParameter().(name := Some(key.name)))]
    {
      ghost var hit, n0, next0 := key in parameterMap.index, parameterMap.nodes, parameterMap.next;
      i := parameterMap.Get(key, NewMethodParameter());
      var model := parameterMap.nodes[i].data;
      parameterMap.Update(i, model.(name := Some(key.name)));
      if hit {
        WriteSame(n0, i);
      } else {
        AppendThenWrite(n0, Node(next0, NewMethodParameter()), Node(next0, NewMethodParameter().(name := Some(key.name))));
      }
    }

    /** `CreatePropertyModel`: intern the key and set `Name := key.Name`. */
    method CreatePropertyModel(key: PropertyKey) returns (i: nat)
      requires PropertiesValid()
      modifies propertyMap
      ensures PropertiesValid()
      ensures i < |propertyMap.nodes| && propertyMap.keys[i] == key
      ensures old(key in propertyMap.index) ==>
        propertyMap.keys == old(propertyMap.keys) && propertyMap.nodes == old(propertyMap.nodes)
      ensures old(key !in propertyMap.index) ==>
        && propertyMap.keys == old(propertyMap.keys) + [key]
        && propertyMap.nodes == old(propertyMap.nodes) + [Node(old(propertyMap.next), NewProperty().(name := Some(key.name)))]
    {
      ghost var hit, n0, next0 := key in propertyMap.index, propertyMap.nodes, propertyMap.next;
      i := propertyMap.Get(key, NewProperty());
      var model := propertyMap.nodes[i].data;
      propertyMap.Update(i, model.(name := Some(key.name)));
      if hit {
        WriteSame(n0, i);
      } else {
        AppendThenWrite(n0, Node(next0, NewProperty()), Node(next0, NewProperty().(name := Some(key.name))));
      }
    }

    /** The shared body of `CreateGenericTypeArg` and `CreateGenericParameter`. */
    method CreateArgumentModel(argKey: TypeKey, typeArgName: string) returns (i: nat)
      requires TypesValid()
      modifies typeMap
      ensures TypesValid()
      ensures i < |typeMap.nodes| && typeMap.keys[i] == argKey
      ensures old(argKey in typeMap.index) ==>
        && typeMap.keys == old(typeMap.keys)
        && typeMap.nodes == old(typeMap.nodes)[i := Node(old(typeMap.nodes[i].id),
             old(typeMap.nodes[i].data).(displayName := Some(typeArgName), typeClass := GenericTypeArg))]
      ensures old(argKey !in typeMap.index) ==>
        && typeMap.keys == old(typeMap.keys) + [argKey]
        && typeMap.nodes == old(typeMap.nodes) + [Node(old(typeMap.next),
             NewType().(name := argKey.name, namespace := argKey.namespace,
                        displayName := Some(typeArgName), typeClass := GenericTypeArg))]
      ensures TypesEvolve(old(typeMap.keys), old(typeMap.nodes), typeMap.keys, typeMap.nodes, {}, {argKey})
    {
      ghost var hit, k0, n0, next0 := argKey in typeMap.index, typeMap.keys, typeMap.nodes, typeMap.next;
      i := typeMap.Get(argKey, NewType());
      var model := typeMap.nodes[i].data;
      typeMap.Update(i, model.(name := argKey.name, namespace := argKey.namespace,
                               displayName := Some(typeArgName), typeClass := GenericTypeArg));
      if hit {
        assert model.name == argKey.name && model.namespace == argKey.namespace;
        TypeInterned(k0, n0, hit, argKey, i, typeMap.nodes[i]);
        TypesEvolveByWrite(k0, n0, i, model.(displayName := Some(typeArgName), typeClass := GenericTypeArg), {}, {argKey});
      } else {
        var node := Node(next0, NewType().(name := argKey.name, namespace := argKey.namespace,
                                           displayName := Some(typeArgName), typeClass := GenericTypeArg));
        AppendThenWrite(n0, Node(next0, NewType()), node);
        TypeInterned(k0, n0, hit, argKey, i, node);
        TypesEvolveByAppend(k0, n0, argKey, node, {}, {argKey});
      }
    }

    /** `CreateGenericTypeArg`: the argument `typeArgName` of the generic type `key`. */
    method CreateGenericTypeArg(key: TypeKey, typeArgName: string) returns (i: nat)
      requires TypesValid()
      modifies typeMap
      ensures TypesValid()
      ensures i < |typeMap.nodes| && typeMap.keys[i] == FromTypeArgument(key, typeArgName)
      ensures typeMap.nodes[i].data.typeClass == GenericTypeArg && typeMap.nodes[i].data.displayName == Some(typeArgName)
      ensures TypesEvolve(old(typeMap.keys), old(typeMap.nodes), typeMap.keys, typeMap.nodes, {}, {FromTypeArgument(key, typeArgName)})
    {
      i := CreateArgumentModel(FromTypeArgument(key, typeArgName), typeArgName);
    }

    /** `CreateGenericParameter`: the generic parameter `typeArgName` of the method `key`. */
    method CreateGenericParameter(key: MethodKey, typeArgName: string) returns (i: nat)
      requires TypesValid()
      modifies typeMap
      ensures TypesValid()
      ensures i < |typeMap.nodes| && typeMap.keys[i] == FromMethodParameter(key, typeArgName)
      ensures typeMap.nodes[i].data.typeClass == GenericTypeArg && typeMap.nodes[i].data.displayName == Some(typeArgName)
      ensures TypesEvolve(old(typeMap.keys), old(typeMap.nodes), typeMap.keys, typeMap.nodes, {}, {FromMethodParameter(key, typeArgName)})
    {
      i := CreateArgumentModel(FromMethodParameter(key, typeArgName), typeArgName);
    }

    /** A field write on an interned type: any field but the key-determined name and namespace. */
    method UpdateType(i: nat, t: NetType)
      requires TypesValid() && i < |typeMap.nodes|
      requires t.name == typeMap.nodes[i].data.name && t.namespace == typeMap.nodes[i].data.namespace
      modifies typeMap
      ensures TypesValid()
      ensures typeMap.keys == old(typeMap.keys) && typeMap.index == old(typeMap.index)
      ensures typeMap.nodes == old(typeMap.nodes)[i := Node(old(typeMap.nodes[i].id), t)]
    {
      typeMap.Update(i, t);
    }

    /** `GetAssemblyModels` to `GetPropertyModels`: every interned node of each map once, in insertion order. */
    function GetAssemblyModels(): (r: seq<nat>)
      reads assemblyMap
      ensures |r| == |assemblyMap.nodes| && forall p :: 0 <= p < |r| ==> r[p] == p
    {
      assemblyMap.Models()
    }

    function GetTypeModels(): (r: seq<nat>)
      reads typeMap
      ensures |r| == |typeMap.nodes| && forall p :: 0 <= p < |r| ==> r[p] == p
    {
      typeMap.Models()
    }

    function GetMethodModels(): (r: seq<nat>)
      reads methodMap
      ensures |r| == |methodMap.nodes| && forall p :: 0 <= p < |r| ==> r[p] == p
    {
      methodMap.Models()
    }

    function GetMethodParameterModels(): (r: seq<nat>)
      reads parameterMap
      ensures |r| == |parameterMap.nodes| && forall p :: 0 <= p < |r| ==> r[p] == p
    {
      parameterMap.Models()
    }

    function GetPropertyModels(): (r: seq<nat>)
      reads propertyMap
      ensures |r| == |propertyMap.nodes| && forall p :: 0 <= p < |r| ==> r[p] == p
    {
      propertyMap.Models()
    }

    /** A field write on an interned assembly: any field but the name. */
    method UpdateAssembly(i: nat, a: NetAssembly)
      requires AssembliesValid() && i < |assemblyMap.nodes| && a.name == assemblyMap.nodes[i].data.name
      modifies assemblyMap
      ensures AssembliesValid()
      ensures assemblyMap.keys == old(assemblyMap.keys) && assemblyMap.index == old(assemblyMap.index)
      ensures assemblyMap.nodes == old(assemblyMap.nodes)[i := Node(old(assemblyMap.nodes[i].id), a)]
    {
      assemblyMap.Update(i, a);
    }

    /** A field write on an interned method: any field but the name. */
    method UpdateMethod(i: nat, m: NetMethod)
      requires MethodsValid() && i < |methodMap.nodes| && m.name == methodMap.nodes[i].data.name
      modifies methodMap
      ensures MethodsValid()
      ensures methodMap.keys == old(methodMap.keys) && methodMap.index == old(methodMap.index)
      ensures methodMap.nodes == old(methodMap.nodes)[i := Node(old(methodMap.nodes[i].id), m)]
    {
      methodMap.Update(i, m);
    }

    /** A field write on an interned parameter: any field but the name. */
    method UpdateParameter(i: nat, p: NetMethodParameter)
      requires ParametersValid() && i < |parameterMap.nodes| && p.name == parameterMap.nodes[i].data.name
      modifies parameterMap
      ensures ParametersValid()
      ensures parameterMap.keys == old(parameterMap.keys) && parameterMap.index == old(parameterMap.index)
      ensures parameterMap.nodes == old(parameterMap.nodes)[i := Node(old(parameterMap.nodes[i].id), p)]
    {
      parameterMap.Update(i, p);
    }

    /** A field write on an interned property: any field but the name. */
    method UpdateProperty(i: nat, p: NetProperty)
      requires PropertiesValid() && i < |propertyMap.nodes| && p.name == propertyMap.nodes[i].data.name
      modifies propertyMap
      ensures PropertiesValid()
      ensures propertyMap.keys == old(propertyMap.keys) && propertyMap.index == old(propertyMap.index)
      ensures propertyMap.nodes == old(propertyMap.nodes)[i := Node(old(propertyMap.nodes[i].id), p)]
    {
      propertyMap.Update(i, p);
    }
  }


  /**
   * One evolution followed by a smaller one is an evolution against the
   * larger sets: the step a scanning loop takes.
   */
  lemma TypesEvolveStep(
    k0: seq<TypeKey>, n0: seq<Node<int, NetType>>,
    k1: seq<TypeKey>, n1: seq<Node<int, NetType>>,
    k2: seq<TypeKey>, n2: seq<Node<int, NetType>>,
    renamed: set<TypeKey>, retyped: set<TypeKey>, r: set<TypeKey>, t: set<TypeKey>)
    requires TypesEvolve(k0, n0, k1, n1, renamed, retyped)
    requires TypesEvolve(k1, n1, k2, n2, r, t) && r <= renamed && t <= retyped
    ensures TypesEvolve(k0, n0, k2, n2, renamed, retyped)
  {
    TypesEvolveTransitive(k0, n0, k1, n1, k2, n2, renamed, retyped, r, t);
    assert renamed + r == renamed && retyped + t == retyped;
  }

  /** What an evolution says about one node that was there before. */
  lemma TypesEvolveAt(
    k0: seq<TypeKey>, n0: seq<Node<int, NetType>>, k1: seq<TypeKey>, n1: seq<Node<int, NetType>>,
    renamed: set<TypeKey>, retyped: set<TypeKey>, i: nat)
    requires TypesEvolve(k0, n0, k1, n1, renamed, retyped) && i < |n0|
    ensures i < |n1| && i < |k1| && k1[i] == k0[i]
    ensures TypeEvolves(n0[i].data, n1[i].data, k0[i], renamed, retyped)
  {
    ExtendsKeeps(k0, k1, i);
  }

  /** The evolution from a state to itself, against any sets. */
  lemma TypesEvolveNothing(keys: seq<TypeKey>, nodes: seq<Node<int, NetType>>, renamed: set<TypeKey>, retyped: set<TypeKey>)
    requires |keys| == |nodes| && Distinct(keys)
    ensures TypesEvolve(keys, nodes, keys, nodes, renamed, retyped)
  {
    TypesEvolveReflexive(keys, nodes);
  }

  /**
   * `CreateTypeModel` inside a scan that started at `(k0, n0)` and may
   * rename the keys in `renamed`.
   */
  method InternTypeEvolving(factory: ModelFactory, key: TypeKey,
                            ghost k0: seq<TypeKey>, ghost n0: seq<Node<int, NetType>>,
                            ghost renamed: set<TypeKey>, ghost retyped: set<TypeKey>) returns (i: nat)
    requires factory.TypesValid() && key in renamed
    requires TypesEvolve(k0, n0, factory.typeMap.keys, factory.typeMap.nodes, renamed, retyped)
    modifies factory.typeMap
    ensures factory.TypesValid() && Extends(old(factory.typeMap.keys), factory.typeMap.keys)
    ensures i < |factory.typeMap.keys| && factory.typeMap.keys[i] == key
    ensures TypesEvolve(k0, n0, factory.typeMap.keys, factory.typeMap.nodes, renamed, retyped)
  {
    ghost var k1, n1 := factory.typeMap.keys, factory.typeMap.nodes;
    i := factory.CreateTypeModel(key);
    TypesEvolveStep(k0, n0, k1, n1, factory.typeMap.keys, factory.typeMap.nodes, renamed, retyped, {key}, {});
  }

  /**
   * `CreateGenericTypeArg` inside a scan that started at `(k0, n0)` and may
   * retype the keys in `retyped`.
   */
  method InternArgumentEvolving(factory: ModelFactory, owner: TypeKey, name: string,
                                ghost k0: seq<TypeKey>, ghost n0: seq<Node<int, NetType>>,
                                ghost renamed: set<TypeKey>, ghost retyped: set<TypeKey>) returns (i: nat)
    requires factory.TypesValid() && FromTypeArgument(owner, name) in retyped
    requires TypesEvolve(k0, n0, factory.typeMap.keys, factory.typeMap.nodes, renamed, retyped)
    modifies factory.typeMap
    ensures factory.TypesValid() && Extends(old(factory.typeMap.keys), factory.typeMap.keys)
    ensures i < |factory.typeMap.keys| && factory.typeMap.keys[i] == FromTypeArgument(owner, name)
    ensures factory.typeMap.nodes[i].data.typeClass == GenericTypeArg && factory.typeMap.nodes[i].data.displayName == Some(name)
    ensures TypesEvolve(k0, n0, factory.typeMap.keys, factory.typeMap.nodes, renamed, retyped)
  {
    ghost var k1, n1 := factory.typeMap.keys, factory.typeMap.nodes;
    i := factory.CreateGenericTypeArg(owner, name);
    TypesEvolveStep(k0, n0, k1, n1, factory.typeMap.keys, factory.typeMap.nodes, renamed, retyped, {}, {FromTypeArgument(owner, name)});
  }
}
