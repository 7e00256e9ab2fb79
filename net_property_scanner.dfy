/**
 * Net.Scanner/PropertyScanner.cs: one Cecil property becomes a property node
 * whose type is the return type of its getter.
 */
module NetPropertyScanner {
  import opened Wrappers
  import opened Graph
  import opened NetTypeKeys
  import opened NetModel
  import opened NetModelFactory
  import opened NetAbstractScanner
  import Cecil

  /** The type key `ScanProperty` interns: the getter's return type, when there is a getter. */
  function PropertyRenames(def: Cecil.PropertyDefinition): set<TypeKey>
  {
    if def.getter.Some? then {def.getter.value.key} else {}
  }

  /** What `ScanProperty` leaves in the property node. */
  predicate PropertyModelled(p: NetProperty, def: Cecil.PropertyDefinition, typeModel: nat, typeKeys: seq<TypeKey>)
  {
    && p.name == Some(def.key.name)
    && p.declaringType == Some(typeModel)
    && def.getter.Some?
    && p.propertyType.Some? && p.propertyType.value < |typeKeys|
    && typeKeys[p.propertyType.value] == def.getter.value.key
  }

  lemma PropertyModelledExtended(p: NetProperty, def: Cecil.PropertyDefinition, typeModel: nat, k0: seq<TypeKey>, k1: seq<TypeKey>)
    requires PropertyModelled(p, def, typeModel, k0) && Extends(k0, k1)
    ensures PropertyModelled(p, def, typeModel, k1)
  {
    ExtendsKeeps(k0, k1, p.propertyType.value);
  }

  /** The first two steps of `ScanProperty`: `CreatePropertyModel`, then `DeclaringType := typeModel`. */
  method InternProperty(factory: ModelFactory, key: PropertyKey, typeModel: nat) returns (i: nat)
    requires factory.PropertiesValid()
    modifies factory.propertyMap
    ensures factory.PropertiesValid() && Extends(old(factory.propertyMap.keys), factory.propertyMap.keys)
    ensures i < |factory.propertyMap.nodes| && factory.propertyMap.keys[i] == key
    ensures factory.propertyMap.nodes[i].data.name == Some(key.name)
    ensures factory.propertyMap.nodes[i].data.declaringType == Some(typeModel)
    ensures KeptBut(old(factory.propertyMap.nodes), factory.propertyMap.nodes, i)
  {
    ghost var k0 := factory.propertyMap.keys;
    i := factory.CreatePropertyModel(key);
    assert factory.propertyMap.keys[..|k0|] == k0;
    var model := factory.propertyMap.nodes[i].data;
    factory.UpdateProperty(i, model.(declaringType := Some(typeModel)));
  }

  /**
   * `ScanProperty`: intern the property, set its declaring type, then its
   * type from `GetMethod.ReturnType`; a property without a getter throws
   * NullReferenceException at that point.
   */
  method ScanProperty(factory: ModelFactory, def: Cecil.PropertyDefinition, typeModel: nat,
                      ghost k0: seq<TypeKey>, ghost n0: seq<Node<int, NetType>>,
                      ghost renamed: set<TypeKey>, ghost retyped: set<TypeKey>) returns (r: Result<nat>)
    requires factory.Separate() && factory.TypesValid() && factory.PropertiesValid() && PropertyRenames(def) <= renamed
    requires TypesEvolve(k0, n0, factory.typeMap.keys, factory.typeMap.nodes, renamed, retyped)
    modifies factory.typeMap, factory.propertyMap
    ensures factory.TypesValid() && factory.PropertiesValid()
    ensures Extends(old(factory.typeMap.keys), factory.typeMap.keys)
    ensures Extends(old(factory.propertyMap.keys), factory.propertyMap.keys)
    ensures r.Ok? <==> def.getter.Some?
    ensures r.Err? ==> r.error == NullReference
    ensures r.Ok? ==> r.value < |factory.propertyMap.nodes| && factory.propertyMap.keys[r.value] == def.key
    ensures r.Ok? ==> PropertyModelled(factory.propertyMap.nodes[r.value].data, def, typeModel, factory.typeMap.keys)
    ensures r.Ok? ==> KeptBut(old(factory.propertyMap.nodes), factory.propertyMap.nodes, r.value)
    ensures TypesEvolve(k0, n0, factory.typeMap.keys, factory.typeMap.nodes, renamed, retyped)
  {
    ghost var before := factory.propertyMap.nodes;
    var p := InternProperty(factory, def.key, typeModel);
    if def.getter.None? {
      return Err(NullReference);
    }
    var propertyType := GetTypeFromTypeReference(factory, def.getter.value, k0, n0, renamed, retyped);
    ghost var mid := factory.propertyMap.nodes;
    var model := factory.propertyMap.nodes[p].data;
    factory.UpdateProperty(p, model.(propertyType := Some(propertyType)));
    KeptButWrite(before, mid, p, factory.propertyMap.nodes[p]);
    r := Ok(p);
  }
}
