/**
 * Net.Scanner/MethodScanner.cs: one Cecil method definition becomes a method
 * node, with its generic parameters, return type and parameters interned
 * through the factory.
 */
module NetMethodScanner {
  import opened Wrappers
  import opened NetTypeKeys
  import opened NetModel
  import opened NetModelFactory
  import opened NetVisibility
  import opened Flags
  import MA = MethodAttributes
  import Cecil
  import opened Graph
  import opened NetAbstractScanner

  predicate IsAbstract(def: Cecil.MethodDefinition) { HasFlag(def.attributes, MA.Abstract) }

  predicate IsStatic(def: Cecil.MethodDefinition) { HasFlag(def.attributes, MA.Static) }

  /** `IsSealed`: a method is sealed when it is `final`. */
  predicate IsSealed(def: Cecil.MethodDefinition) { HasFlag(def.attributes, MA.Final) }

  /** `IsGeneric`: `HasGenericParameters`. */
  predicate IsGeneric(def: Cecil.MethodDefinition) { |def.genericParameters| > 0 }

  function ParameterKeys(ps: seq<Cecil.ParameterDefinition>): (ks: seq<MethodParameterKey>)
    ensures |ks| == |ps| && forall j :: 0 <= j < |ps| ==> ks[j] == ps[j].key
  {
    seq(|ps|, j requires 0 <= j < |ps| => ps[j].key)
  }

  /** The type keys `CreateTypeModel` is called with while a method is scanned. */
  function MethodRenames(def: Cecil.MethodDefinition): set<TypeKey>
  {
    {def.returnType.key} + set p | p in def.parameters :: p.parameterType.key
  }

  /** What `CreateParameter` leaves in a parameter node. */
  predicate ParameterModelled(p: NetMethodParameter, param: Cecil.ParameterDefinition, methodModel: nat, typeKeys: seq<TypeKey>)
  {
    && p.name == Some(param.key.name)
    && p.order == param.sequence
    && p.parameterType.Some? && p.parameterType.value < |typeKeys|
    && typeKeys[p.parameterType.value] == param.parameterType.key
    && p.declaringMethod == Some(methodModel)
  }

  /** What `ScanMethod` leaves in the method node: every property it sets, read back. */
  predicate MethodModelled(n: NetMethod, def: Cecil.MethodDefinition, typeModel: nat,
                           typeKeys: seq<TypeKey>, parameterKeys: seq<MethodParameterKey>)
  {
    && n.name == Some(def.key.name)
    && n.declaringType == Some(typeModel)
    && MethodVisibility(def.attributes) == Ok(n.visibility)
    && n.isAbstract == IsAbstract(def)
    && n.isStatic == IsStatic(def)
    && n.isSealed == IsSealed(def)
    && n.isGeneric == IsGeneric(def)
    && RefersTo(typeKeys, n.genericParameters, GenericParameterKeys(def.genericParameters))
    && n.returnType.Some? && n.returnType.value < |typeKeys|
    && typeKeys[n.returnType.value] == def.returnType.key
    && RefersTo(parameterKeys, n.parameters, ParameterKeys(def.parameters))
  }

  /** The first |ps| parameters are modelled by the nodes at `ps`. */
  ghost predicate ParametersModelled(nodes: seq<Node<int, NetMethodParameter>>, ps: seq<nat>,
                                     params: seq<Cecil.ParameterDefinition>, methodModel: nat, typeKeys: seq<TypeKey>)
  {
    && |ps| <= |params|
    && forall i :: 0 <= i < |ps| ==> ps[i] < |nodes| && ParameterModelled(nodes[ps[i]].data, params[i], methodModel, typeKeys)
  }

  /**
   * One more parameter created under a key no earlier parameter has: the
   * earlier nodes are not written, so they stay modelled.
   */
  lemma ParametersModelledStep(pk1: seq<MethodParameterKey>, pn1: seq<Node<int, NetMethodParameter>>,
                               pk2: seq<MethodParameterKey>, pn2: seq<Node<int, NetMethodParameter>>,
                               k1: seq<TypeKey>, k2: seq<TypeKey>,
                               ps: seq<nat>, params: seq<Cecil.ParameterDefinition>, methodModel: nat, q: nat)
    requires Distinct(ParameterKeys(params)) && |ps| < |params| && |pk1| == |pn1|
    requires RefersTo(pk1, ps, ParameterKeys(params)[..|ps|]) && ParametersModelled(pn1, ps, params, methodModel, k1)
    requires Extends(pk1, pk2) && Extends(k1, k2) && |pn1| <= |pn2|
    requires q < |pn2| && q < |pk2| && pk2[q] == params[|ps|].key
    requires ParameterModelled(pn2[q].data, params[|ps|], methodModel, k2)
    requires forall i :: 0 <= i < |pn1| && i != q ==> pn2[i] == pn1[i]
    ensures ParametersModelled(pn2, ps + [q], params, methodModel, k2)
  {
    var keys := ParameterKeys(params);
    forall i | 0 <= i < |ps|
      ensures ps[i] < |pn2| && ParameterModelled(pn2[ps[i]].data, params[i], methodModel, k2)
    {
      assert pk1[ps[i]] == keys[..|ps|][i] == keys[i] && keys[i] != keys[|ps|];
      ExtendsKeeps(pk1, pk2, ps[i]);
      ParameterModelledExtended(pn1[ps[i]].data, params[i], methodModel, k1, k2);
    }
  }

  lemma ParameterModelledExtended(p: NetMethodParameter, param: Cecil.ParameterDefinition, m: nat, k0: seq<TypeKey>, k1: seq<TypeKey>)
    requires ParameterModelled(p, param, m, k0) && Extends(k0, k1)
    ensures ParameterModelled(p, param, m, k1)
  {
    ExtendsKeeps(k0, k1, p.parameterType.value);
  }

  lemma MethodModelledExtended(n: NetMethod, def: Cecil.MethodDefinition, t: nat,
                               k0: seq<TypeKey>, k1: seq<TypeKey>, p0: seq<MethodParameterKey>, p1: seq<MethodParameterKey>)
    requires MethodModelled(n, def, t, k0, p0) && Extends(k0, k1) && Extends(p0, p1)
    ensures MethodModelled(n, def, t, k1, p1)
  {
    ExtendsKeeps(k0, k1, n.returnType.value);
    RefersToExtended(k0, k1, n.genericParameters, GenericParameterKeys(def.genericParameters));
    RefersToExtended(p0, p1, n.parameters, ParameterKeys(def.parameters));
  }

  /** A method's visibility is decided by its access bits alone: an abstract, static or final method keeps it. */
  lemma FlagsDoNotChangeVisibility(def: Cecil.MethodDefinition, extra: bv32)
    requires extra & MA.MemberAccessMask == 0
    ensures MethodVisibility(def.attributes | extra) == MethodVisibility(def.attributes)
  {
    OnlyAccessBitsMatter(def.attributes | extra, def.attributes);
  }

  /** Two overloads share a `MethodKey` (declaring type and name), so a scan interns them as one node. */
  lemma OverloadsShareAKey(a: Cecil.MethodDefinition, b: Cecil.MethodDefinition)
    requires a.key.declaringType == b.key.declaringType && a.key.name == b.key.name
    ensures a.key == b.key
  {
  }


  /** `CreateMethodParameter`, as `CreateParameter` needs it: the new node, named, and nothing else written. */
  method InternParameter(factory: ModelFactory, key: MethodParameterKey) returns (q: nat)
    requires factory.ParametersValid()
    modifies factory.parameterMap
    ensures factory.ParametersValid() && Extends(old(factory.parameterMap.keys), factory.parameterMap.keys)
    ensures q < |factory.parameterMap.nodes| && factory.parameterMap.keys[q] == key
    ensures factory.parameterMap.nodes[q].data.name == Some(key.name)
    ensures forall i :: 0 <= i < |old(factory.parameterMap.nodes)| && i != q ==>
      factory.parameterMap.nodes[i] == old(factory.parameterMap.nodes[i])
  {
    ghost var k0 := factory.parameterMap.keys;
    q := factory.CreateMethodParameter(key);
    assert factory.parameterMap.keys[..|k0|] == k0;
  }

  /**
   * `CreateParameter`: intern the parameter, set its order, then its type
   * and the method node it belongs to. The order is written here together
   * with the others, after the type is interned: interning touches only the
   * type map, so the resulting state is the same.
   */
  method CreateParameter(factory: ModelFactory, param: Cecil.ParameterDefinition, methodModel: nat,
                         ghost k0: seq<TypeKey>, ghost n0: seq<Node<int, NetType>>,
                         ghost renamed: set<TypeKey>, ghost retyped: set<TypeKey>) returns (q: nat)
    requires factory.Separate() && factory.TypesValid() && factory.ParametersValid() && param.parameterType.key in renamed
    requires TypesEvolve(k0, n0, factory.typeMap.keys, factory.typeMap.nodes, renamed, retyped)
    modifies factory.typeMap, factory.parameterMap
    ensures factory.TypesValid() && factory.ParametersValid()
    ensures Extends(old(factory.typeMap.keys), factory.typeMap.keys)
    ensures Extends(old(factory.parameterMap.keys), factory.parameterMap.keys)
    ensures q < |factory.parameterMap.nodes| && factory.parameterMap.keys[q] == param.key
    ensures ParameterModelled(factory.parameterMap.nodes[q].data, param, methodModel, factory.typeMap.keys)
    ensures forall i :: 0 <= i < |old(factory.parameterMap.nodes)| && i != q ==>
      factory.parameterMap.nodes[i] == old(factory.parameterMap.nodes[i])
    ensures TypesEvolve(k0, n0, factory.typeMap.keys, factory.typeMap.nodes, renamed, retyped)
  {
    ghost var tk, tn := factory.typeMap.keys, factory.typeMap.nodes;
    q := InternParameter(factory, param.key);
    assert factory.typeMap.keys == tk && factory.typeMap.nodes == tn;
    var parameterType := GetTypeFromTypeReference(factory, param.parameterType, k0, n0, renamed, retyped);
    var model := factory.parameterMap.nodes[q].data;
    factory.UpdateParameter(q, model.(order := param.sequence, parameterType := Some(parameterType),
                                      declaringMethod := Some(methodModel)));
  }

  /** One iteration of `CreateParameters`: `CreateParameter` for the `j`-th parameter. */
  method CreateNextParameter(factory: ModelFactory, def: Cecil.MethodDefinition, j: nat, methodModel: nat, ps: seq<nat>,
                             ghost t0: seq<TypeKey>, ghost p0: seq<MethodParameterKey>,
                             ghost k0: seq<TypeKey>, ghost n0: seq<Node<int, NetType>>,
                             ghost renamed: set<TypeKey>, ghost retyped: set<TypeKey>) returns (q: nat)
    requires j < |def.parameters|
    requires factory.Separate() && factory.TypesValid() && factory.ParametersValid() && MethodRenames(def) <= renamed
    requires Extends(t0, factory.typeMap.keys) && Extends(p0, factory.parameterMap.keys)
    requires TypesEvolve(k0, n0, factory.typeMap.keys, factory.typeMap.nodes, renamed, retyped)
    requires RefersTo(factory.parameterMap.keys, ps, ParameterKeys(def.parameters)[..j])
    requires Distinct(ParameterKeys(def.parameters)) ==>
      ParametersModelled(factory.parameterMap.nodes, ps, def.parameters, methodModel, factory.typeMap.keys)
    modifies factory.typeMap, factory.parameterMap
    ensures factory.TypesValid() && factory.ParametersValid()
    ensures Extends(t0, factory.typeMap.keys) && Extends(p0, factory.parameterMap.keys)
    ensures TypesEvolve(k0, n0, factory.typeMap.keys, factory.typeMap.nodes, renamed, retyped)
    ensures RefersTo(factory.parameterMap.keys, ps + [q], ParameterKeys(def.parameters)[..j + 1])
    ensures Distinct(ParameterKeys(def.parameters)) ==>
      ParametersModelled(factory.parameterMap.nodes, ps + [q], def.parameters, methodModel, factory.typeMap.keys)
  {
    ghost var k1 := factory.typeMap.keys;
    ghost var pk1, pn1 := factory.parameterMap.keys, factory.parameterMap.nodes;
    var param := def.parameters[j];
    assert param in def.parameters;
    q := CreateParameter(factory, param, methodModel, k0, n0, renamed, retyped);
    ExtendsTransitive(t0, k1, factory.typeMap.keys);
    if Distinct(ParameterKeys(def.parameters)) {
      ParametersModelledStep(pk1, pn1, factory.parameterMap.keys, factory.parameterMap.nodes, k1, factory.typeMap.keys,
                             ps, def.parameters, methodModel, q);
    }
    RefersToStep(p0, pk1, factory.parameterMap.keys, ps, ParameterKeys(def.parameters), j, q);
  }

  /** `CreateParameters`: one `CreateParameter` per parameter, in order. */
  method CreateParameters(factory: ModelFactory, def: Cecil.MethodDefinition, methodModel: nat,
                          ghost k0: seq<TypeKey>, ghost n0: seq<Node<int, NetType>>,
                          ghost renamed: set<TypeKey>, ghost retyped: set<TypeKey>) returns (ps: seq<nat>)
    requires factory.Separate() && factory.TypesValid() && factory.ParametersValid() && MethodRenames(def) <= renamed
    requires TypesEvolve(k0, n0, factory.typeMap.keys, factory.typeMap.nodes, renamed, retyped)
    modifies factory.typeMap, factory.parameterMap
    ensures factory.TypesValid() && factory.ParametersValid()
    ensures Extends(old(factory.typeMap.keys), factory.typeMap.keys)
    ensures Extends(old(factory.parameterMap.keys), factory.parameterMap.keys)
    ensures RefersTo(factory.parameterMap.keys, ps, ParameterKeys(def.parameters))
    ensures Distinct(ParameterKeys(def.parameters)) ==>
      ParametersModelled(factory.parameterMap.nodes, ps, def.parameters, methodModel, factory.typeMap.keys)
    ensures TypesEvolve(k0, n0, factory.typeMap.keys, factory.typeMap.nodes, renamed, retyped)
  {
    ghost var t0, p0 := factory.typeMap.keys, factory.parameterMap.keys;
    ghost var expected := ParameterKeys(def.parameters);
    ghost var distinct := Distinct(expected);
    ps := [];
    for j := 0 to |def.parameters|
      invariant factory.TypesValid() && factory.ParametersValid()
      invariant Extends(t0, factory.typeMap.keys) && Extends(p0, factory.parameterMap.keys)
      invariant TypesEvolve(k0, n0, factory.typeMap.keys, factory.typeMap.nodes, renamed, retyped)
      invariant RefersTo(factory.parameterMap.keys, ps, expected[..j])
      invariant distinct ==> ParametersModelled(factory.parameterMap.nodes, ps, def.parameters, methodModel, factory.typeMap.keys)
    {
      var q := CreateNextParameter(factory, def, j, methodModel, ps, t0, p0, k0, n0, renamed, retyped);
      ps := ps + [q];
    }
    RefersToAll(factory.parameterMap.keys, ps, expected);
  }

  /** The first two steps of `ScanMethod`: `CreateMethodModel`, then `DeclaringType := type`. */
  method InternMethod(factory: ModelFactory, key: MethodKey, typeModel: nat) returns (m: nat)
    requires factory.MethodsValid()
    modifies factory.methodMap
    ensures factory.MethodsValid() && Extends(old(factory.methodMap.keys), factory.methodMap.keys)
    ensures m < |factory.methodMap.nodes| && factory.methodMap.keys[m] == key
    ensures factory.methodMap.nodes[m].data.name == Some(key.name)
    ensures factory.methodMap.nodes[m].data.declaringType == Some(typeModel)
    ensures KeptBut(old(factory.methodMap.nodes), factory.methodMap.nodes, m)
  {
    ghost var k0 := factory.methodMap.keys;
    m := factory.CreateMethodModel(key);
    assert factory.methodMap.keys[..|k0|] == k0;
    var model := factory.methodMap.nodes[m].data;
    factory.UpdateMethod(m, model.(declaringType := Some(typeModel)));
  }

  /**
   * The part of `ScanMethod` that interns what the method's signature
   * mentions: `CreateGenericParameters`, the return type and `CreateParameters`.
   */
  method CreateSignature(factory: ModelFactory, def: Cecil.MethodDefinition, methodModel: nat,
                         ghost k0: seq<TypeKey>, ghost n0: seq<Node<int, NetType>>,
                         ghost renamed: set<TypeKey>, ghost retyped: set<TypeKey>)
    returns (genericParameters: seq<nat>, returnType: nat, parameters: seq<nat>)
    requires factory.Separate() && factory.TypesValid() && factory.ParametersValid()
    requires MethodRenames(def) <= renamed && GenericParameterKeySet(def.genericParameters) <= retyped
    requires TypesEvolve(k0, n0, factory.typeMap.keys, factory.typeMap.nodes, renamed, retyped)
    modifies factory.typeMap, factory.parameterMap
    ensures factory.TypesValid() && factory.ParametersValid()
    ensures Extends(old(factory.typeMap.keys), factory.typeMap.keys)
    ensures Extends(old(factory.parameterMap.keys), factory.parameterMap.keys)
    ensures RefersTo(factory.typeMap.keys, genericParameters, GenericParameterKeys(def.genericParameters))
    ensures returnType < |factory.typeMap.keys| && factory.typeMap.keys[returnType] == def.returnType.key
    ensures RefersTo(factory.parameterMap.keys, parameters, ParameterKeys(def.parameters))
    ensures Distinct(ParameterKeys(def.parameters)) ==>
      ParametersModelled(factory.parameterMap.nodes, parameters, def.parameters, methodModel, factory.typeMap.keys)
    ensures TypesEvolve(k0, n0, factory.typeMap.keys, factory.typeMap.nodes, renamed, retyped)
  {
    ghost var t0 := factory.typeMap.keys;
    genericParameters := CreateGenericTypeArgs(factory, def.genericParameters, k0, n0, renamed, retyped);
    ghost var k1 := factory.typeMap.keys;
    assert def.returnType.key in MethodRenames(def);
    returnType := GetTypeFromTypeReference(factory, def.returnType, k0, n0, renamed, retyped);
    ghost var k2 := factory.typeMap.keys;
    parameters := CreateParameters(factory, def, methodModel, k0, n0, renamed, retyped);
    ExtendsKeeps(k2, factory.typeMap.keys, returnType);
    ExtendsTransitive(k1, k2, factory.typeMap.keys);
    ExtendsTransitive(t0, k1, factory.typeMap.keys);
    RefersToExtended(k1, factory.typeMap.keys, genericParameters, GenericParameterKeys(def.genericParameters));
  }

  /**
   * `ScanMethod`: intern the method and set its declaring type, then its
   * visibility (an unsupported access throws ArgumentOutOfRangeException,
   * leaving the interned node behind), its flags, its generic parameters,
   * its return type and its parameters. The writes after the visibility
   * are gathered into one, after the interning calls: those touch only the
   * type and parameter maps, so the resulting state is the same.
   */
  method ScanMethod(factory: ModelFactory, def: Cecil.MethodDefinition, typeModel: nat) returns (r: Result<nat>)
    requires factory.Valid()
    modifies factory.methodMap, factory.typeMap, factory.parameterMap
    ensures factory.Valid()
    ensures Extends(old(factory.typeMap.keys), factory.typeMap.keys)
    ensures Extends(old(factory.methodMap.keys), factory.methodMap.keys)
    ensures Extends(old(factory.parameterMap.keys), factory.parameterMap.keys)
    ensures r.Ok? <==> MethodVisibility(def.attributes).Ok?
    ensures r.Err? ==> r.error == MethodVisibility(def.attributes).error
    ensures r.Ok? ==> r.value < |factory.methodMap.nodes| && factory.methodMap.keys[r.value] == def.key
    ensures r.Ok? ==> MethodModelled(factory.methodMap.nodes[r.value].data, def, typeModel, factory.typeMap.keys, factory.parameterMap.keys)
    ensures r.Ok? && Distinct(ParameterKeys(def.parameters)) ==>
      ParametersModelled(factory.parameterMap.nodes, factory.methodMap.nodes[r.value].data.parameters,
                         def.parameters, r.value, factory.typeMap.keys)
    ensures TypesEvolve(old(factory.typeMap.keys), old(factory.typeMap.nodes), factory.typeMap.keys, factory.typeMap.nodes,
                        MethodRenames(def), GenericParameterKeySet(def.genericParameters))
  {
    TypesEvolveNothing(factory.typeMap.keys, factory.typeMap.nodes, MethodRenames(def), GenericParameterKeySet(def.genericParameters));
    r := ScanMethodEvolving(factory, def, typeModel, factory.typeMap.keys, factory.typeMap.nodes,
                            MethodRenames(def), GenericParameterKeySet(def.genericParameters));
  }

  /** `ScanMethod` inside a scan that started at `(k0, n0)`: the form `ScanType`'s loop calls. */
  method ScanMethodEvolving(factory: ModelFactory, def: Cecil.MethodDefinition, typeModel: nat,
                            ghost k0: seq<TypeKey>, ghost n0: seq<Node<int, NetType>>,
                            ghost renamed: set<TypeKey>, ghost retyped: set<TypeKey>) returns (r: Result<nat>)
    requires factory.Separate() && factory.TypesValid() && factory.MethodsValid() && factory.ParametersValid()
    requires MethodRenames(def) <= renamed && GenericParameterKeySet(def.genericParameters) <= retyped
    requires TypesEvolve(k0, n0, factory.typeMap.keys, factory.typeMap.nodes, renamed, retyped)
    modifies factory.methodMap, factory.typeMap, factory.parameterMap
    ensures factory.TypesValid() && factory.MethodsValid() && factory.ParametersValid()
    ensures Extends(old(factory.typeMap.keys), factory.typeMap.keys)
    ensures Extends(old(factory.methodMap.keys), factory.methodMap.keys)
    ensures Extends(old(factory.parameterMap.keys), factory.parameterMap.keys)
    ensures r.Ok? <==> MethodVisibility(def.attributes).Ok?
    ensures r.Err? ==> r.error == MethodVisibility(def.attributes).error
    ensures r.Ok? ==> r.value < |factory.methodMap.nodes| && factory.methodMap.keys[r.value] == def.key
    ensures r.Ok? ==> MethodModelled(factory.methodMap.nodes[r.value].data, def, typeModel, factory.typeMap.keys, factory.parameterMap.keys)
    ensures r.Ok? && Distinct(ParameterKeys(def.parameters)) ==>
      ParametersModelled(factory.parameterMap.nodes, factory.methodMap.nodes[r.value].data.parameters,
                         def.parameters, r.value, factory.typeMap.keys)
    ensures r.Ok? ==> KeptBut(old(factory.methodMap.nodes), factory.methodMap.nodes, r.value)
    ensures TypesEvolve(k0, n0, factory.typeMap.keys, factory.typeMap.nodes, renamed, retyped)
  {
    ghost var before := factory.methodMap.nodes;
    var m := InternMethod(factory, def.key, typeModel);
    var visibility := MethodVisibility(def.attributes);
    if visibility.Err? {
      return Err(visibility.error);
    }
    ghost var mid := factory.methodMap.nodes;
    RecordMethod(factory, def, typeModel, m, visibility.value, k0, n0, renamed, retyped);
    KeptButTransitive(before, mid, factory.methodMap.nodes, m);
    r := Ok(m);
  }

  /**
   * The rest of `ScanMethod` once the method is interned and its visibility
   * known: the flags, then the signature. The writes are gathered into one,
   * after the interning calls: those touch only the type and parameter maps,
   * so the resulting state is the same.
   */
  method RecordMethod(factory: ModelFactory, def: Cecil.MethodDefinition, typeModel: nat, m: nat, visibility: Visibility,
                      ghost k0: seq<TypeKey>, ghost n0: seq<Node<int, NetType>>,
                      ghost renamed: set<TypeKey>, ghost retyped: set<TypeKey>)
    requires factory.Separate() && factory.TypesValid() && factory.MethodsValid() && factory.ParametersValid()
    requires MethodRenames(def) <= renamed && GenericParameterKeySet(def.genericParameters) <= retyped
    requires TypesEvolve(k0, n0, factory.typeMap.keys, factory.typeMap.nodes, renamed, retyped)
    requires m < |factory.methodMap.nodes| && MethodVisibility(def.attributes) == Ok(visibility)
    requires factory.methodMap.nodes[m].data.name == Some(def.key.name)
    requires factory.methodMap.nodes[m].data.declaringType == Some(typeModel)
    modifies factory.methodMap, factory.typeMap, factory.parameterMap
    ensures factory.TypesValid() && factory.MethodsValid() && factory.ParametersValid()
    ensures Extends(old(factory.typeMap.keys), factory.typeMap.keys)
    ensures factory.methodMap.keys == old(factory.methodMap.keys)
    ensures Extends(old(factory.parameterMap.keys), factory.parameterMap.keys)
    ensures MethodModelled(factory.methodMap.nodes[m].data, def, typeModel, factory.typeMap.keys, factory.parameterMap.keys)
    ensures Distinct(ParameterKeys(def.parameters)) ==>
      ParametersModelled(factory.parameterMap.nodes, factory.methodMap.nodes[m].data.parameters,
                         def.parameters, m, factory.typeMap.keys)
    ensures KeptBut(old(factory.methodMap.nodes), factory.methodMap.nodes, m)
    ensures TypesEvolve(k0, n0, factory.typeMap.keys, factory.typeMap.nodes, renamed, retyped)
  {
    var genericParameters, returnType, parameters := CreateSignature(factory, def, m, k0, n0, renamed, retyped);
    ghost var mid := factory.methodMap.nodes;
    var model := factory.methodMap.nodes[m].data;
    factory.UpdateMethod(m, model.(visibility := visibility, isAbstract := IsAbstract(def),
                                   isStatic := IsStatic(def), isSealed := IsSealed(def), isGeneric := IsGeneric(def),
                                   genericParameters := genericParameters, returnType := Some(returnType),
                                   parameters := parameters));
    KeptButWrite(mid, mid, m, factory.methodMap.nodes[m]);
  }
}
