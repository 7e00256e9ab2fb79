/** Net.Scanner/AbstractScanner.cs: what every newer scanner shares. */
module NetAbstractScanner {
  import opened Wrappers
  import opened Graph
  import opened NetTypeKeys
  import opened NetModel
  import opened NetModelFactory
  import Cecil

  /**
   * `GetTypeFromTypeReference`: `Factory.CreateTypeModel` for the reference,
   * inside a scan that started at `(k0, n0)` and may rename `renamed`.
   * A custom attribute is represented by its `AttributeType`, so
   * `GetTypeFromCustomAttribute` is this method applied to it.
   */
  method GetTypeFromTypeReference(factory: ModelFactory, typeReference: Cecil.TypeReference,
                                  ghost k0: seq<TypeKey>, ghost n0: seq<Node<int, NetType>>,
                                  ghost renamed: set<TypeKey>, ghost retyped: set<TypeKey>) returns (i: nat)
    requires factory.TypesValid() && typeReference.key in renamed
    requires TypesEvolve(k0, n0, factory.typeMap.keys, factory.typeMap.nodes, renamed, retyped)
    modifies factory.typeMap
    ensures factory.TypesValid() && Extends(old(factory.typeMap.keys), factory.typeMap.keys)
    ensures i < |factory.typeMap.keys| && factory.typeMap.keys[i] == typeReference.key
    ensures TypesEvolve(k0, n0, factory.typeMap.keys, factory.typeMap.nodes, renamed, retyped)
  {
    i := InternTypeEvolving(factory, typeReference.key, k0, n0, renamed, retyped);
  }

  /** The key `Factory.CreateGenericTypeArg(arg)` interns for a generic parameter: its owner's argument `name`. */
  function GenericParameterKey(gp: Cecil.GenericParameter): (k: TypeKey)
    ensures TypeArgumentOf(gp.ownerKey, k) == Some(gp.name)
  {
    TypeArgumentRoundTrip(gp.ownerKey, gp.name);
    FromTypeArgument(gp.ownerKey, gp.name)
  }

  function GenericParameterKeys(gps: seq<Cecil.GenericParameter>): (ks: seq<TypeKey>)
    ensures |ks| == |gps| && forall j :: 0 <= j < |gps| ==> ks[j] == GenericParameterKey(gps[j])
  {
    seq(|gps|, j requires 0 <= j < |gps| => GenericParameterKey(gps[j]))
  }

  /** The keys of generic-argument nodes a scan may (re)classify as GenericTypeArg. */
  function GenericParameterKeySet(gps: seq<Cecil.GenericParameter>): set<TypeKey>
  {
    set gp | gp in gps :: GenericParameterKey(gp)
  }

  /**
   * `TypeScanner.CreateGenericTypeArgs` and `MethodScanner.CreateGenericParameters`:
   * one `Factory.CreateGenericTypeArg` per generic parameter, in order.
   */
  method CreateGenericTypeArgs(factory: ModelFactory, gps: seq<Cecil.GenericParameter>,
                                 ghost k0: seq<TypeKey>, ghost n0: seq<Node<int, NetType>>,
                                 ghost renamed: set<TypeKey>, ghost retyped: set<TypeKey>) returns (ps: seq<nat>)
    requires factory.TypesValid() && GenericParameterKeySet(gps) <= retyped
    requires TypesEvolve(k0, n0, factory.typeMap.keys, factory.typeMap.nodes, renamed, retyped)
    modifies factory.typeMap
    ensures factory.TypesValid() && Extends(old(factory.typeMap.keys), factory.typeMap.keys)
    ensures RefersTo(factory.typeMap.keys, ps, GenericParameterKeys(gps))
    ensures TypesEvolve(k0, n0, factory.typeMap.keys, factory.typeMap.nodes, renamed, retyped)
  {
    ghost var start := factory.typeMap.keys;
    ghost var expected := GenericParameterKeys(gps);
    ps := [];
    for j := 0 to |gps|
      invariant factory.TypesValid() && Extends(start, factory.typeMap.keys)
      invariant TypesEvolve(k0, n0, factory.typeMap.keys, factory.typeMap.nodes, renamed, retyped)
      invariant RefersTo(factory.typeMap.keys, ps, expected[..j])
    {
      ghost var k1 := factory.typeMap.keys;
      assert gps[j] in gps;
      var p := InternArgumentEvolving(factory, gps[j].ownerKey, gps[j].name, k0, n0, renamed, retyped);
      RefersToStep(start, k1, factory.typeMap.keys, ps, expected, j, p);
      ps := ps + [p];
    }
    RefersToAll(factory.typeMap.keys, ps, expected);
  }
}
