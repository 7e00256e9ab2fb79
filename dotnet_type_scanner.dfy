/**
 * DotnetScanner/Scanner/TypeScanner.cs: one type definition of a
 * System.Reflection.Metadata reader becomes a type node of the string-keyed
 * factory, created in the database as soon as its own properties are set;
 * its base type, its interfaces and its methods follow, each method with a
 * DEFINES_METHOD relationship from the type.
 */
module DotnetTypeScanner {
  import opened Wrappers
  import opened Strings
  import opened Srm
  import opened Flags
  import TA = TypeAttributes
  import opened Graph
  import opened NetModelFactory
  import opened DotnetIds
  import opened DotnetModel
  import opened DotnetNodeFactory
  import opened DotnetMethodScanner
  import Cecil
  import NetTypeScanner

  /** `typeof(Enum).FullName`. */
  const EnumId: string := "System.Enum"

  /**
   * `IncludeType`: public top-level types only, no SpecialName type, and no
   * compiler-generated `<...>` name; a nil name makes `name.StartsWith`
   * throw NullReferenceException.
   */
  function IncludeType(reader: MetadataReader, d: TypeDefinition): Result<bool>
    requires ValidString(reader, d.name)
  {
    if (d.attributes & TA.VisibilityMask) != TA.Public then Ok(false)
    else if HasFlag(d.attributes, TA.SpecialName) then Ok(false)
    else
      var name := GetString(reader, d.name);
      if name.None? then Err(NullReference)
      else Ok(!StartsWith(name.value, "<"))
  }

  /** Internal and nested types are never scanned, whatever their name: visibility is checked first. */
  lemma NonPublicTypesAreDropped(reader: MetadataReader, d: TypeDefinition)
    requires ValidString(reader, d.name) && (d.attributes & TA.VisibilityMask) != TA.Public
    ensures IncludeType(reader, d) == Ok(false)
  {
  }

  /** The scan throws exactly for a public, non-SpecialName type without a name. */
  lemma IncludeTypeThrows(reader: MetadataReader, d: TypeDefinition)
    requires ValidString(reader, d.name)
    ensures IncludeType(reader, d).Err? <==>
      (d.attributes & TA.VisibilityMask) == TA.Public && !HasFlag(d.attributes, TA.SpecialName) && d.name.IsNil()
    ensures IncludeType(reader, d).Err? ==> IncludeType(reader, d).error == NullReference
  {
  }

  /** A scanned type is public, not SpecialName, and has a name that does not start with '<'. */
  lemma IncludedTypesAreNamedAndPublic(reader: MetadataReader, d: TypeDefinition)
    requires ValidString(reader, d.name) && IncludeType(reader, d) == Ok(true)
    ensures (d.attributes & TA.VisibilityMask) == TA.Public && !HasFlag(d.attributes, TA.SpecialName)
    ensures GetString(reader, d.name).Some? && !StartsWith(GetString(reader, d.name).value, "<")
  {
  }

  /**
   * The id `GetTypeFromEntityHandle` interns a handle under: none for the nil
   * handle and for any handle that is neither a definition nor a reference.
   */
  function EntityId(reader: MetadataReader, h: EntityHandle): (id: Option<string>)
    requires WellFormed(reader) && ValidEntity(reader, h)
    ensures id.Some? ==> !h.IsNil() && (h.kind == TypeDefinitionKind || h.kind == TypeReferenceKind)
    ensures !h.IsNil() && h.kind == TypeDefinitionKind ==>
      id == Some(DefinitionId(reader, GetTypeDefinition(reader, TypeDefinitionHandle(h.row))))
    ensures !h.IsNil() && h.kind == TypeReferenceKind ==>
      id == Some(ReferenceId(reader, GetTypeReference(reader, TypeReferenceHandle(h.row))))
  {
    if h.IsNil() then None
    else if h.kind == TypeDefinitionKind then
      var d := GetTypeDefinition(reader, TypeDefinitionHandle(h.row));
      assert d in reader.typeDefinitions;
      Some(DefinitionId(reader, d))
    else if h.kind == TypeReferenceKind then
      var r := GetTypeReference(reader, TypeReferenceHandle(h.row));
      assert r in reader.typeReferences;
      Some(ReferenceId(reader, r))
    else None
  }

  /** `GetTypeClass`: an interface by its attribute bit, else an enum when the base type's id is "System.Enum". */
  function TypeClassOf(reader: MetadataReader, d: TypeDefinition): (c: TypeClass)
    requires WellFormed(reader) && ValidEntity(reader, d.baseType)
    ensures c == Interface <==> HasFlag(d.attributes, TA.Interface)
    ensures c == Enum <==> !HasFlag(d.attributes, TA.Interface) && EntityId(reader, d.baseType) == Some(EnumId)
  {
    if HasFlag(d.attributes, TA.Interface) then Interface
    else if EntityId(reader, d.baseType) == Some(EnumId) then Enum
    else Class
  }

  predicate IsSealed(d: TypeDefinition) { HasFlag(d.attributes, TA.Sealed) && !HasFlag(d.attributes, TA.Abstract) }

  /** C# compiles a static class as `abstract sealed`. */
  predicate IsStatic(d: TypeDefinition) { HasFlag(d.attributes, TA.Sealed) && HasFlag(d.attributes, TA.Abstract) }

  predicate IsAbstract(d: TypeDefinition) { !HasFlag(d.attributes, TA.Sealed) && HasFlag(d.attributes, TA.Abstract) }

  /**
   * The older flags are the newer scanner's flags on the same attribute bits,
   * so both generations split sealed, static and abstract types alike.
   */
  lemma FlagsAgreeAcrossScanners(d: TypeDefinition, def: Cecil.TypeDefinition)
    requires d.attributes == def.attributes
    ensures IsSealed(d) == NetTypeScanner.IsSealed(def)
    ensures IsStatic(d) == NetTypeScanner.IsStatic(def)
    ensures IsAbstract(d) == NetTypeScanner.IsAbstract(def)
    ensures !(IsSealed(d) && IsStatic(d)) && !(IsSealed(d) && IsAbstract(d)) && !(IsStatic(d) && IsAbstract(d))
  {
    NetTypeScanner.TypeFlagsPartition(def);
  }

  /**
   * The interface ids `SetImplementedInterfaces` adds: those of the leading
   * interfaces that resolve, up to the first that does not (the loop returns there).
   */
  function InterfaceIds(reader: MetadataReader, hs: seq<EntityHandle>): (ids: seq<string>)
    requires WellFormed(reader) && forall j :: 0 <= j < |hs| ==> ValidEntity(reader, hs[j])
    ensures |ids| <= |hs|
    ensures forall j :: 0 <= j < |ids| ==> EntityId(reader, hs[j]) == Some(ids[j])
    ensures |ids| < |hs| ==> EntityId(reader, hs[|ids|]).None?
  {
    if |hs| == 0 then []
    else if EntityId(reader, hs[0]).None? then []
    else
      var tail := hs[1..];
      assert forall j :: 0 <= j < |tail| ==> tail[j] == hs[j + 1];
      [EntityId(reader, hs[0]).value] + InterfaceIds(reader, tail)
  }

  /** Interfaces after an unresolvable one are lost, even when they resolve. */
  lemma InterfacesAfterUnresolvedAreLost(reader: MetadataReader, hs: seq<EntityHandle>, j: nat)
    requires WellFormed(reader) && forall i :: 0 <= i < |hs| ==> ValidEntity(reader, hs[i])
    requires j < |hs| && EntityId(reader, hs[j]).None?
    ensures |InterfaceIds(reader, hs)| <= j
  {
  }

  /** The ids in `hs[..j]` all resolve: the next one resolves exactly when it is among the ids. */
  lemma InterfaceIdsStep(reader: MetadataReader, hs: seq<EntityHandle>, j: nat)
    requires WellFormed(reader) && forall i :: 0 <= i < |hs| ==> ValidEntity(reader, hs[i])
    requires j < |hs| && j <= |InterfaceIds(reader, hs)|
    ensures EntityId(reader, hs[j]).Some? <==> j < |InterfaceIds(reader, hs)|
  {
  }

  lemma TakeOneMore<T>(s: seq<T>, j: nat)
    requires j < |s|
    ensures s[..j + 1] == s[..j] + [s[j]]
  {
  }

  /** What `ScanType` writes into the type node; `prior` is what its `Implements` held before. */
  ghost predicate TypeModelled(n: NetType, reader: MetadataReader, d: TypeDefinition, typeKeys: seq<string>, prior: seq<nat>)
    requires WellFormed(reader) && ValidTypeDefinition(reader, d)
  {
    var base := EntityId(reader, d.baseType);
    && n.typeClass == TypeClassOf(reader, d)
    && n.name == GetString(reader, d.name) && n.namespace == GetString(reader, d.namespace)
    && n.isStatic == IsStatic(d) && n.isAbstract == IsAbstract(d) && n.isSealed == IsSealed(d)
    && (base.None? ==> n.baseType.None?)
    && (base.Some? ==> n.baseType.Some? && n.baseType.value < |typeKeys| && typeKeys[n.baseType.value] == base.value)
    && |prior| <= |n.implements| && n.implements[..|prior|] == prior
    && RefersTo(typeKeys, n.implements[|prior|..], InterfaceIds(reader, d.interfaces))
  }

  lemma TypeModelledExtended(n: NetType, reader: MetadataReader, d: TypeDefinition, k0: seq<string>, k1: seq<string>, prior: seq<nat>)
    requires WellFormed(reader) && ValidTypeDefinition(reader, d)
    requires TypeModelled(n, reader, d, k0, prior) && Extends(k0, k1)
    ensures TypeModelled(n, reader, d, k1, prior)
  {
    if n.baseType.Some? && EntityId(reader, d.baseType).Some? {
      ExtendsKeeps(k0, k1, n.baseType.value);
    }
    RefersToExtended(k0, k1, n.implements[|prior|..], InterfaceIds(reader, d.interfaces));
  }

  /** `Factory.CreateTypeModel(id)` with an id that is not null: it cannot throw. */
  method InternType(factory: NodeFactory, id: string) returns (t: nat)
    requires factory.Valid()
    modifies factory.typeMap
    ensures factory.Valid() && Extends(old(factory.typeMap.keys), factory.typeMap.keys)
    ensures Grows(old(factory.typeMap.nodes), factory.typeMap.nodes, NewType())
    ensures t < |factory.typeMap.keys| && factory.typeMap.keys[t] == id
  {
    ghost var k0, n0, i0 := factory.typeMap.keys, factory.typeMap.nodes, factory.typeMap.index;
    var r := factory.CreateTypeModel(Some(id));
    InternedGrows(k0, n0, i0, factory.typeMap.keys, factory.typeMap.nodes, Some(id), NewType(), r);
    t := r.value;
  }

  /** `GetTypeFromTypeDefinitonHandle`: `CreateTypeModel` with the definition's id. */
  method GetTypeFromTypeDefinitionHandle(reader: MetadataReader, factory: NodeFactory, h: TypeDefinitionHandle) returns (t: nat)
    requires factory.Valid() && WellFormed(reader) && ValidDefinition(reader, h) && !h.IsNil()
    modifies factory.typeMap
    ensures factory.Valid() && Extends(old(factory.typeMap.keys), factory.typeMap.keys)
    ensures Grows(old(factory.typeMap.nodes), factory.typeMap.nodes, NewType())
    ensures t < |factory.typeMap.keys| && factory.typeMap.keys[t] == DefinitionId(reader, GetTypeDefinition(reader, h))
  {
    var d := GetTypeDefinition(reader, h);
    t := InternType(factory, DefinitionId(reader, d));
  }

  /** `GetTypeFromTypeReferenceHandle`: `CreateTypeModel` with the reference's id. */
  method GetTypeFromTypeReferenceHandle(reader: MetadataReader, factory: NodeFactory, h: TypeReferenceHandle) returns (t: nat)
    requires factory.Valid() && WellFormed(reader) && ValidReference(reader, h) && !h.IsNil()
    modifies factory.typeMap
    ensures factory.Valid() && Extends(old(factory.typeMap.keys), factory.typeMap.keys)
    ensures Grows(old(factory.typeMap.nodes), factory.typeMap.nodes, NewType())
    ensures t < |factory.typeMap.keys| && factory.typeMap.keys[t] == ReferenceId(reader, GetTypeReference(reader, h))
  {
    var r := GetTypeReference(reader, h);
    t := InternType(factory, ReferenceId(reader, r));
  }

  /** `GetTypeFromEntityHandle`: null for a nil handle or one of another kind, else the interned type. */
  method GetTypeFromEntityHandle(reader: MetadataReader, factory: NodeFactory, h: EntityHandle) returns (t: Option<nat>)
    requires factory.Valid() && WellFormed(reader) && ValidEntity(reader, h)
    modifies factory.typeMap
    ensures factory.Valid() && Extends(old(factory.typeMap.keys), factory.typeMap.keys)
    ensures Grows(old(factory.typeMap.nodes), factory.typeMap.nodes, NewType())
    ensures t.None? <==> EntityId(reader, h).None?
    ensures t.None? ==> unchanged(factory.typeMap)
    ensures t.Some? ==> t.value < |factory.typeMap.keys| && factory.typeMap.keys[t.value] == EntityId(reader, h).value
  {
    if h.IsNil() {
      ExtendsReflexive(factory.typeMap.keys);
      return None;
    }
    match h.kind {
      case TypeDefinitionKind =>
        var p := GetTypeFromTypeDefinitionHandle(reader, factory, TypeDefinitionHandle(h.row));
        t := Some(p);
      case TypeReferenceKind =>
        var p := GetTypeFromTypeReferenceHandle(reader, factory, TypeReferenceHandle(h.row));
        t := Some(p);
      case _ =>
        ExtendsReflexive(factory.typeMap.keys);
        t := None;
    }
  }

  /** `GetTypeClass`, which interns the base type on its way when the type is not an interface. */
  method GetTypeClass(reader: MetadataReader, factory: NodeFactory, d: TypeDefinition) returns (c: TypeClass)
    requires factory.Valid() && WellFormed(reader) && ValidEntity(reader, d.baseType)
    modifies factory.typeMap
    ensures factory.Valid() && Extends(old(factory.typeMap.keys), factory.typeMap.keys)
    ensures Grows(old(factory.typeMap.nodes), factory.typeMap.nodes, NewType())
    ensures c == TypeClassOf(reader, d)
  {
    if HasFlag(d.attributes, TA.Interface) {
      ExtendsReflexive(factory.typeMap.keys);
      return Interface;
    }
    var baseType := GetTypeFromEntityHandle(reader, factory, d.baseType);
    if baseType.Some? && factory.typeMap.nodes[baseType.value].id == EnumId {
      c := Enum;
    } else {
      c := Class;
    }
  }

  /**
   * Lines 29 to 35 of `ScanType`: intern the type under its id, then write
   * its class, name, namespace and flags. `GetTypeClass` may intern the base
   * type after the type itself, which leaves the type's node as it was.
   */
  method CreateTypeNode(reader: MetadataReader, factory: NodeFactory, d: TypeDefinition) returns (t: nat)
    requires factory.Valid() && WellFormed(reader) && ValidTypeDefinition(reader, d)
    modifies factory.typeMap
    ensures factory.Valid() && Extends(old(factory.typeMap.keys), factory.typeMap.keys)
    ensures t < |factory.typeMap.keys| && factory.typeMap.keys[t] == DefinitionId(reader, d)
    ensures GrowsBut(old(factory.typeMap.nodes), factory.typeMap.nodes, NewType(), t)
    ensures factory.typeMap.nodes[t].data == Before(old(factory.typeMap.nodes), t, NewType()).(
      typeClass := TypeClassOf(reader, d), name := GetString(reader, d.name), namespace := GetString(reader, d.namespace),
      isStatic := IsStatic(d), isAbstract := IsAbstract(d), isSealed := IsSealed(d))
  {
    ghost var k0, n0 := factory.typeMap.keys, factory.typeMap.nodes;
    t := InternType(factory, DefinitionId(reader, d));
    ghost var k1, n1 := factory.typeMap.keys, factory.typeMap.nodes;
    var typeClass := GetTypeClass(reader, factory, d);
    ExtendsTransitive(k0, k1, factory.typeMap.keys);
    GrowsTransitive(n0, n1, factory.typeMap.nodes, NewType());
    ExtendsKeeps(k1, factory.typeMap.keys, t);
    ghost var n2 := factory.typeMap.nodes;
    var model := factory.typeMap.nodes[t].data;
    factory.typeMap.Update(t, model.(typeClass := typeClass, name := GetString(reader, d.name),
                                     namespace := GetString(reader, d.namespace), isStatic := IsStatic(d),
                                     isAbstract := IsAbstract(d), isSealed := IsSealed(d)));
    GrowsThenWrite(n0, n2, NewType(), t, factory.typeMap.nodes[t]);
  }

  /** `SetBaseType`: the base type's node, interned again, or null. */
  method SetBaseType(reader: MetadataReader, factory: NodeFactory, d: TypeDefinition, t: nat)
    requires factory.Valid() && WellFormed(reader) && ValidEntity(reader, d.baseType) && t < |factory.typeMap.nodes|
    modifies factory.typeMap
    ensures factory.Valid() && Extends(old(factory.typeMap.keys), factory.typeMap.keys)
    ensures GrowsBut(old(factory.typeMap.nodes), factory.typeMap.nodes, NewType(), t)
    ensures var n := factory.typeMap.nodes[t].data;
      && n == old(factory.typeMap.nodes[t].data).(baseType := n.baseType)
      && (EntityId(reader, d.baseType).None? ==> n.baseType.None?)
      && (EntityId(reader, d.baseType).Some? ==>
            n.baseType.Some? && n.baseType.value < |factory.typeMap.keys|
            && factory.typeMap.keys[n.baseType.value] == EntityId(reader, d.baseType).value)
  {
    ghost var n0 := factory.typeMap.nodes;
    var baseType := GetTypeFromEntityHandle(reader, factory, d.baseType);
    ghost var n1 := factory.typeMap.nodes;
    var model := factory.typeMap.nodes[t].data;
    factory.typeMap.Update(t, model.(baseType := baseType));
    GrowsThenWrite(n0, n1, NewType(), t, factory.typeMap.nodes[t]);
  }

  /** Two type records that differ at most in `implements`. */
  predicate SameButImplements(a: NetType, b: NetType)
  {
    && a.typeClass == b.typeClass && a.name == b.name && a.namespace == b.namespace
    && a.isAbstract == b.isAbstract && a.isStatic == b.isStatic && a.isSealed == b.isSealed
    && a.baseType == b.baseType
  }

  lemma GrowsButTwice<D>(n0: seq<Node<string, D>>, n1: seq<Node<string, D>>, n2: seq<Node<string, D>>, blank: D, q: nat)
    requires GrowsBut(n0, n1, blank, q) && GrowsBut(n1, n2, blank, q)
    ensures GrowsBut(n0, n2, blank, q)
  {
  }

  /** One iteration of `SetImplementedInterfaces`: intern the interface and, when it resolves, add it. */
  method AddInterface(reader: MetadataReader, factory: NodeFactory, h: EntityHandle, t: nat) returns (p: Option<nat>)
    requires factory.Valid() && WellFormed(reader) && ValidEntity(reader, h) && t < |factory.typeMap.nodes|
    modifies factory.typeMap
    ensures factory.Valid() && Extends(old(factory.typeMap.keys), factory.typeMap.keys)
    ensures GrowsBut(old(factory.typeMap.nodes), factory.typeMap.nodes, NewType(), t)
    ensures p.None? <==> EntityId(reader, h).None?
    ensures p.None? ==> factory.typeMap.keys == old(factory.typeMap.keys) && factory.typeMap.nodes == old(factory.typeMap.nodes)
    ensures p.Some? ==> p.value < |factory.typeMap.keys| && factory.typeMap.keys[p.value] == EntityId(reader, h).value
    ensures p.Some? ==> SameButImplements(factory.typeMap.nodes[t].data, old(factory.typeMap.nodes[t].data))
    ensures p.Some? ==> factory.typeMap.nodes[t].data.implements == old(factory.typeMap.nodes[t].data.implements) + [p.value]
  {
    ghost var n0 := factory.typeMap.nodes;
    p := GetTypeFromEntityHandle(reader, factory, h);
    ghost var n1 := factory.typeMap.nodes;
    if p.None? {
      return;
    }
    var model := factory.typeMap.nodes[t].data;
    factory.typeMap.Update(t, model.(implements := model.implements + [p.value]));
    GrowsThenWrite(n0, n1, NewType(), t, factory.typeMap.nodes[t]);
  }

  /**
   * What `SetImplementedInterfaces` has done to the type map, from `k0` and
   * `n0`, after its first `j` interfaces: the type's `Implements` is its old
   * list followed by `added`, the positions of the first `j` interface ids,
   * and no other node has changed.
   */
  ghost predicate InterfacesAdded(keys: seq<string>, nodes: seq<Node<string, NetType>>,
                                  reader: MetadataReader, hs: seq<EntityHandle>, t: nat,
                                  k0: seq<string>, n0: seq<Node<string, NetType>>, added: seq<nat>, j: nat)
    requires WellFormed(reader) && forall i :: 0 <= i < |hs| ==> ValidEntity(reader, hs[i])
  {
    && t < |n0| && j <= |InterfaceIds(reader, hs)|
    && Extends(k0, keys) && t < |nodes| && GrowsBut(n0, nodes, NewType(), t)
    && SameButImplements(nodes[t].data, n0[t].data)
    && nodes[t].data.implements == n0[t].data.implements + added
    && RefersTo(keys, added, InterfaceIds(reader, hs)[..j])
  }

  /** An interface that resolves to position `p` moves `InterfacesAdded` one handle on. */
  lemma InterfacesAddedStep(keys1: seq<string>, nodes1: seq<Node<string, NetType>>,
                            keys2: seq<string>, nodes2: seq<Node<string, NetType>>,
                            reader: MetadataReader, hs: seq<EntityHandle>, t: nat,
                            k0: seq<string>, n0: seq<Node<string, NetType>>, added: seq<nat>, j: nat, p: nat)
    requires WellFormed(reader) && forall i :: 0 <= i < |hs| ==> ValidEntity(reader, hs[i])
    requires j < |hs| && InterfacesAdded(keys1, nodes1, reader, hs, t, k0, n0, added, j)
    requires Extends(keys1, keys2) && GrowsBut(nodes1, nodes2, NewType(), t)
    requires SameButImplements(nodes2[t].data, nodes1[t].data)
    requires nodes2[t].data.implements == nodes1[t].data.implements + [p]
    requires p < |keys2| && Some(keys2[p]) == EntityId(reader, hs[j])
    ensures j < |InterfaceIds(reader, hs)| && InterfacesAdded(keys2, nodes2, reader, hs, t, k0, n0, added + [p], j + 1)
  {
    var ids := InterfaceIds(reader, hs);
    InterfaceIdsStep(reader, hs, j);
    ExtendsTransitive(k0, keys1, keys2);
    GrowsButTwice(n0, nodes1, nodes2, NewType(), t);
    RefersToSnoc(keys1, keys2, added, ids[..j], p);
    TakeOneMore(ids, j);
    assert n0[t].data.implements + added + [p] == n0[t].data.implements + (added + [p]);
  }

  /** One turn of the loop of `SetImplementedInterfaces`; `stopped` is its early `return`. */
  method AddNextInterface(reader: MetadataReader, factory: NodeFactory, hs: seq<EntityHandle>, t: nat,
                          ghost k0: seq<string>, ghost n0: seq<Node<string, NetType>>, ghost added: seq<nat>, j: nat)
    returns (stopped: bool, ghost added': seq<nat>)
    requires WellFormed(reader) && forall i :: 0 <= i < |hs| ==> ValidEntity(reader, hs[i])
    requires factory.Valid() && j < |hs| && InterfacesAdded(factory.typeMap.keys, factory.typeMap.nodes, reader, hs, t, k0, n0, added, j)
    modifies factory.typeMap
    ensures factory.Valid()
    ensures stopped ==> j == |InterfaceIds(reader, hs)| && added' == added
    ensures InterfacesAdded(factory.typeMap.keys, factory.typeMap.nodes, reader, hs, t, k0, n0, added', if stopped then j else j + 1)
  {
    InterfaceIdsStep(reader, hs, j);
    ghost var k1, n1 := factory.typeMap.keys, factory.typeMap.nodes;
    var interfaceType := AddInterface(reader, factory, hs[j], t);
    if interfaceType.None? {
      return true, added;
    }
    InterfacesAddedStep(k1, n1, factory.typeMap.keys, factory.typeMap.nodes, reader, hs, t, k0, n0, added, j, interfaceType.value);
    return false, added + [interfaceType.value];
  }

  /**
   * `SetImplementedInterfaces`: each interface, in order, is interned and
   * added to `Implements`; the first that does not resolve ends the loop,
   * and the interfaces after it are not looked at.
   */
  method SetImplementedInterfaces(reader: MetadataReader, factory: NodeFactory, hs: seq<EntityHandle>, t: nat)
    returns (ghost added: seq<nat>)
    requires factory.Valid() && WellFormed(reader) && t < |factory.typeMap.nodes|
    requires forall j :: 0 <= j < |hs| ==> ValidEntity(reader, hs[j])
    modifies factory.typeMap
    ensures factory.Valid() && Extends(old(factory.typeMap.keys), factory.typeMap.keys)
    ensures GrowsBut(old(factory.typeMap.nodes), factory.typeMap.nodes, NewType(), t)
    ensures SameButImplements(factory.typeMap.nodes[t].data, old(factory.typeMap.nodes[t].data))
    ensures factory.typeMap.nodes[t].data.implements == old(factory.typeMap.nodes[t].data.implements) + added
    ensures RefersTo(factory.typeMap.keys, added, InterfaceIds(reader, hs))
  {
    ghost var k0, n0 := factory.typeMap.keys, factory.typeMap.nodes;
    added := [];
    ExtendsReflexive(k0);
    var j, stopped := 0, false;
    while j < |hs| && !stopped
      invariant j <= |hs| && (stopped ==> j == |InterfaceIds(reader, hs)|)
      invariant factory.Valid() && InterfacesAdded(factory.typeMap.keys, factory.typeMap.nodes, reader, hs, t, k0, n0, added, j)
      decreases |hs| - j, !stopped
    {
      stopped, added := AddNextInterface(reader, factory, hs, t, k0, n0, added, j);
      if !stopped {
        j := j + 1;
      }
    }
    assert InterfaceIds(reader, hs)[..j] == InterfaceIds(reader, hs);
  }

  /**
   * The loop at the end of `ScanType`: the names of the methods it adds, in
   * order, or the failure of the first included method whose scan throws,
   * which leaves the loop and `ScanType` alike.
   */
  function ScannedMethods(reader: MetadataReader, ms: seq<MethodDefinition>): (r: Result<seq<string>>)
    requires WellFormed(reader) && forall i :: 0 <= i < |ms| ==> ValidMethod(reader, ms[i])
    ensures r.Ok? ==> |r.value| <= |ms|
    decreases |ms|
  {
    if |ms| == 0 then Ok([])
    else
      var prefix := ScannedMethods(reader, ms[..|ms| - 1]);
      var m := ms[|ms| - 1];
      assert ValidMethod(reader, m);
      if prefix.Err? || !IncludeMethod(reader, m) then prefix
      else if MethodFailure(reader, m).Some? then Err(MethodFailure(reader, m).value)
      else Ok(prefix.value + [GetString(reader, m.name).value])
  }

  /** A method that throws: included, and its signature or its name fails. */
  predicate Throws(reader: MetadataReader, m: MethodDefinition)
    requires WellFormed(reader) && ValidMethod(reader, m)
  {
    IncludeMethod(reader, m) && MethodFailure(reader, m).Some?
  }

  /**
   * The method loop fails exactly when one of the methods throws, and then
   * with the failure of the first that does.
   */
  lemma {:induction false} ScannedMethodsFail(reader: MetadataReader, ms: seq<MethodDefinition>)
    requires WellFormed(reader) && forall i :: 0 <= i < |ms| ==> ValidMethod(reader, ms[i])
    ensures ScannedMethods(reader, ms).Err? <==> exists k :: 0 <= k < |ms| && Throws(reader, ms[k])
    ensures ScannedMethods(reader, ms).Err? ==>
      exists k :: 0 <= k < |ms| && Throws(reader, ms[k]) && MethodFailure(reader, ms[k]) == Some(ScannedMethods(reader, ms).error)
        && forall i :: 0 <= i < k ==> !Throws(reader, ms[i])
    decreases |ms|
  {
    if |ms| > 0 {
      var init := ms[..|ms| - 1];
      ScannedMethodsFail(reader, init);
      assert forall i :: 0 <= i < |init| ==> init[i] == ms[i];
      if ScannedMethods(reader, init).Err? {
        var k :| 0 <= k < |init| && Throws(reader, init[k]) && MethodFailure(reader, init[k]) == Some(ScannedMethods(reader, init).error)
          && forall i :: 0 <= i < k ==> !Throws(reader, init[i]);
        assert Throws(reader, ms[k]);
      } else if Throws(reader, ms[|ms| - 1]) {
        assert forall i :: 0 <= i < |ms| - 1 ==> !Throws(reader, ms[i]);
      } else {
        assert forall i :: 0 <= i < |ms| ==> !Throws(reader, ms[i]);
      }
    }
  }

  /** Every name the loop adds is the name of a method it keeps. */
  lemma {:induction false} ScannedMethodsAreIncluded(reader: MetadataReader, ms: seq<MethodDefinition>, j: nat)
    requires WellFormed(reader) && forall i :: 0 <= i < |ms| ==> ValidMethod(reader, ms[i])
    requires ScannedMethods(reader, ms).Ok? && j < |ScannedMethods(reader, ms).value|
    ensures exists i :: 0 <= i < |ms| && IncludeMethod(reader, ms[i]) && GetString(reader, ms[i].name) == Some(ScannedMethods(reader, ms).value[j])
    decreases |ms|
  {
    var init := ms[..|ms| - 1];
    var names := ScannedMethods(reader, init).value;
    if j < |names| {
      ScannedMethodsAreIncluded(reader, init, j);
      var i :| 0 <= i < |init| && IncludeMethod(reader, init[i]) && GetString(reader, init[i].name) == Some(names[j]);
      assert ms[i] == init[i];
    } else {
      assert IncludeMethod(reader, ms[|ms| - 1]);
    }
  }

  /** The calls lines 42 to 53 of `ScanType` make on the database: one DEFINES_METHOD edge per method kept. */
  function MethodEdges(t: nat, ps: seq<nat>): (es: seq<Event<NodeRef>>)
    ensures |es| == |ps|
    ensures forall i :: 0 <= i < |ps| ==> es[i] == RelationshipCreated(TypeRef(t), MethodRef(ps[i]), DefinesMethod)
  {
    if |ps| == 0 then [] else MethodEdges(t, ps[..|ps| - 1]) + [RelationshipCreated(TypeRef(t), MethodRef(ps[|ps| - 1]), DefinesMethod)]
  }

  lemma MethodEdgesSnoc(t: nat, ps: seq<nat>, p: nat)
    ensures MethodEdges(t, ps + [p]) == MethodEdges(t, ps) + [RelationshipCreated(TypeRef(t), MethodRef(p), DefinesMethod)]
  {
    assert (ps + [p])[..|ps|] == ps;
  }

  /**
   * Where the method loop of `ScanType` stands after `j` methods, from the
   * maps `tk0`, `tn0`, `mk0` and the log `e0`: no method has thrown yet,
   * `ps` are the positions of the methods kept, and each has its edge.
   */
  ghost predicate MethodsScanned(typeKeys: seq<string>, typeNodes: seq<Node<string, NetType>>, methodKeys: seq<string>,
                                 events: seq<Event<NodeRef>>, reader: MetadataReader, ms: seq<MethodDefinition>, t: nat,
                                 tk0: seq<string>, tn0: seq<Node<string, NetType>>, mk0: seq<string>, e0: seq<Event<NodeRef>>,
                                 ps: seq<nat>, j: nat)
    requires WellFormed(reader) && forall i :: 0 <= i < |ms| ==> ValidMethod(reader, ms[i])
  {
    && j <= |ms|
    && Extends(tk0, typeKeys) && Grows(tn0, typeNodes, NewType()) && Extends(mk0, methodKeys)
    && ScannedMethods(reader, ms[..j]).Ok?
    && RefersTo(methodKeys, ps, ScannedMethods(reader, ms[..j]).value)
    && events == e0 + MethodEdges(t, ps)
  }

  lemma ScannedMethodsStep(reader: MetadataReader, ms: seq<MethodDefinition>, j: nat)
    requires WellFormed(reader) && forall i :: 0 <= i < |ms| ==> ValidMethod(reader, ms[i])
    requires j < |ms|
    ensures ScannedMethods(reader, ms[..j + 1]) ==
      var prefix := ScannedMethods(reader, ms[..j]);
      if prefix.Err? || !IncludeMethod(reader, ms[j]) then prefix
      else if MethodFailure(reader, ms[j]).Some? then Err(MethodFailure(reader, ms[j]).value)
      else Ok(prefix.value + [GetString(reader, ms[j].name).value])
  {
    assert ms[..j + 1][..j] == ms[..j];
  }

  /** A method that is skipped keeps `MethodsScanned`, one method on. */
  lemma MethodsScannedSkip(tk1: seq<string>, tn1: seq<Node<string, NetType>>, mk1: seq<string>,
                           tk2: seq<string>, tn2: seq<Node<string, NetType>>, mk2: seq<string>,
                           events: seq<Event<NodeRef>>, reader: MetadataReader, ms: seq<MethodDefinition>, t: nat,
                           tk0: seq<string>, tn0: seq<Node<string, NetType>>, mk0: seq<string>, e0: seq<Event<NodeRef>>,
                           ps: seq<nat>, j: nat)
    requires WellFormed(reader) && forall i :: 0 <= i < |ms| ==> ValidMethod(reader, ms[i])
    requires j < |ms| && MethodsScanned(tk1, tn1, mk1, events, reader, ms, t, tk0, tn0, mk0, e0, ps, j)
    requires Extends(tk1, tk2) && Grows(tn1, tn2, NewType()) && Extends(mk1, mk2)
    requires !IncludeMethod(reader, ms[j])
    ensures MethodsScanned(tk2, tn2, mk2, events, reader, ms, t, tk0, tn0, mk0, e0, ps, j + 1)
  {
    ScannedMethodsStep(reader, ms, j);
    ExtendsTransitive(tk0, tk1, tk2);
    ExtendsTransitive(mk0, mk1, mk2);
    GrowsTransitive(tn0, tn1, tn2, NewType());
    RefersToExtended(mk1, mk2, ps, ScannedMethods(reader, ms[..j]).value);
  }

  /** A method kept at position `p`, with its edge logged, moves `MethodsScanned` one method on. */
  lemma MethodsScannedKeep(tk1: seq<string>, tn1: seq<Node<string, NetType>>, mk1: seq<string>,
                           tk2: seq<string>, tn2: seq<Node<string, NetType>>, mk2: seq<string>,
                           events: seq<Event<NodeRef>>, reader: MetadataReader, ms: seq<MethodDefinition>, t: nat,
                           tk0: seq<string>, tn0: seq<Node<string, NetType>>, mk0: seq<string>, e0: seq<Event<NodeRef>>,
                           ps: seq<nat>, j: nat, p: nat)
    requires WellFormed(reader) && forall i :: 0 <= i < |ms| ==> ValidMethod(reader, ms[i])
    requires j < |ms| && MethodsScanned(tk1, tn1, mk1, events, reader, ms, t, tk0, tn0, mk0, e0, ps, j)
    requires Extends(tk1, tk2) && Grows(tn1, tn2, NewType()) && Extends(mk1, mk2)
    requires IncludeMethod(reader, ms[j]) && MethodFailure(reader, ms[j]).None?
    requires p < |mk2| && Some(mk2[p]) == GetString(reader, ms[j].name)
    ensures MethodsScanned(tk2, tn2, mk2, events + [RelationshipCreated(TypeRef(t), MethodRef(p), DefinesMethod)],
                           reader, ms, t, tk0, tn0, mk0, e0, ps + [p], j + 1)
  {
    ScannedMethodsStep(reader, ms, j);
    ExtendsTransitive(tk0, tk1, tk2);
    ExtendsTransitive(mk0, mk1, mk2);
    GrowsTransitive(tn0, tn1, tn2, NewType());
    RefersToSnoc(mk1, mk2, ps, ScannedMethods(reader, ms[..j]).value, p);
    MethodEdgesSnoc(t, ps, p);
  }

  /** The position a scan that keeps a method adds, if any. */
  function Kept(p: Option<nat>): (ps: seq<nat>)
    ensures |ps| <= 1 && (p.None? <==> ps == []) && (p.Some? ==> ps == [p.value])
  {
    if p.Some? then [p.value] else []
  }

  /** A failing prefix is the failure of the whole method loop: the loop stops there. */
  lemma {:induction false} ScannedMethodsPrefixError(reader: MetadataReader, ms: seq<MethodDefinition>, k: nat)
    requires WellFormed(reader) && forall i :: 0 <= i < |ms| ==> ValidMethod(reader, ms[i])
    requires k <= |ms| && ScannedMethods(reader, ms[..k]).Err?
    ensures ScannedMethods(reader, ms) == ScannedMethods(reader, ms[..k])
    decreases |ms| - k
  {
    if k < |ms| {
      ScannedMethodsStep(reader, ms, k);
      ScannedMethodsPrefixError(reader, ms, k + 1);
    } else {
      assert ms[..k] == ms;
    }
  }

  /** One turn of the method loop of `ScanType`: scan the method and, when it is kept, log its edge. */
  method ScanNextMethod(reader: MetadataReader, factory: NodeFactory, db: Transaction<NodeRef>, ms: seq<MethodDefinition>, t: nat,
                        ghost tk0: seq<string>, ghost tn0: seq<Node<string, NetType>>, ghost mk0: seq<string>,
                        ghost e0: seq<Event<NodeRef>>, ghost ps: seq<nat>, j: nat)
    returns (r: Result<Option<nat>>)
    requires WellFormed(reader) && forall i :: 0 <= i < |ms| ==> ValidMethod(reader, ms[i])
    requires factory.Valid() && j < |ms|
    requires MethodsScanned(factory.typeMap.keys, factory.typeMap.nodes, factory.methodMap.keys, db.events,
                            reader, ms, t, tk0, tn0, mk0, e0, ps, j)
    modifies db, factory.typeMap, factory.methodMap
    ensures factory.Valid()
    ensures r.Err? ==> ScannedMethods(reader, ms[..j + 1]) == Err(r.error)
    ensures r.Err? ==> Extends(tk0, factory.typeMap.keys) && Grows(tn0, factory.typeMap.nodes, NewType())
    ensures r.Err? ==> Extends(mk0, factory.methodMap.keys) && db.events == e0 + MethodEdges(t, ps)
    ensures r.Ok? ==> MethodsScanned(factory.typeMap.keys, factory.typeMap.nodes, factory.methodMap.keys, db.events,
                                     reader, ms, t, tk0, tn0, mk0, e0, ps + Kept(r.value), j + 1)
  {
    ghost var tk1, tn1, mk1 := factory.typeMap.keys, factory.typeMap.nodes, factory.methodMap.keys;
    r := ScanMethod(reader, factory, ms[j]);
    ScannedMethodsStep(reader, ms, j);
    if r.Err? {
      ExtendsTransitive(tk0, tk1, factory.typeMap.keys);
      ExtendsTransitive(mk0, mk1, factory.methodMap.keys);
      GrowsTransitive(tn0, tn1, factory.typeMap.nodes, NewType());
      return;
    }
    if r.value.None? {
      MethodsScannedSkip(tk1, tn1, mk1, factory.typeMap.keys, factory.typeMap.nodes, factory.methodMap.keys, db.events,
                         reader, ms, t, tk0, tn0, mk0, e0, ps, j);
      assert ps + Kept(r.value) == ps;
      return;
    }
    var p := r.value.value;
    db.CreateRelationship(TypeRef(t), MethodRef(p), DefinesMethod);
    MethodsScannedKeep(tk1, tn1, mk1, factory.typeMap.keys, factory.typeMap.nodes, factory.methodMap.keys, old(db.events),
                       reader, ms, t, tk0, tn0, mk0, e0, ps, j, p);
  }

  /**
   * Lines 42 to 53 of `ScanType`: every method of the type is scanned in
   * order, and each one kept gets a DEFINES_METHOD edge from the type; the
   * first exception ends the scan. `ps` are the positions kept until then.
   */
  method ScanMethods(reader: MetadataReader, factory: NodeFactory, db: Transaction<NodeRef>, ms: seq<MethodDefinition>, t: nat)
    returns (r: Result<seq<nat>>, ghost ps: seq<nat>)
    requires WellFormed(reader) && forall i :: 0 <= i < |ms| ==> ValidMethod(reader, ms[i])
    requires factory.Valid()
    modifies db, factory.typeMap, factory.methodMap
    ensures factory.Valid()
    ensures Extends(old(factory.typeMap.keys), factory.typeMap.keys) && Grows(old(factory.typeMap.nodes), factory.typeMap.nodes, NewType())
    ensures Extends(old(factory.methodMap.keys), factory.methodMap.keys)
    ensures r.Ok? <==> ScannedMethods(reader, ms).Ok?
    ensures r.Err? ==> ScannedMethods(reader, ms) == Err(r.error)
    ensures r.Ok? ==> r.value == ps && RefersTo(factory.methodMap.keys, ps, ScannedMethods(reader, ms).value)
    ensures db.events == old(db.events) + MethodEdges(t, ps)
  {
    ghost var tk0, tn0, mk0, e0 := factory.typeMap.keys, factory.typeMap.nodes, factory.methodMap.keys, db.events;
    ExtendsReflexive(tk0);
    ExtendsReflexive(mk0);
    GrowsReflexive(tn0, NewType());
    var positions: seq<nat> := [];
    for j := 0 to |ms|
      invariant factory.Valid()
      invariant MethodsScanned(factory.typeMap.keys, factory.typeMap.nodes, factory.methodMap.keys, db.events,
                               reader, ms, t, tk0, tn0, mk0, e0, positions, j)
    {
      var methodModel := ScanNextMethod(reader, factory, db, ms, t, tk0, tn0, mk0, e0, positions, j);
      if methodModel.Err? {
        ScannedMethodsPrefixError(reader, ms, j + 1);
        return Err(methodModel.error), positions;
      }
      positions := positions + Kept(methodModel.value);
    }
    assert ms[..|ms|] == ms;
    return Ok(positions), positions;
  }

  /**
   * Lines 39 and 40 of `ScanType`: the base type, then the interfaces. With
   * the properties of lines 30 to 35 already written, the node is then
   * modelled in full; `Implements` keeps what it held before.
   */
  method SetTypeReferences(reader: MetadataReader, factory: NodeFactory, d: TypeDefinition, t: nat)
    requires factory.Valid() && WellFormed(reader) && ValidTypeDefinition(reader, d) && t < |factory.typeMap.nodes|
    requires var n := factory.typeMap.nodes[t].data;
      && n.typeClass == TypeClassOf(reader, d)
      && n.name == GetString(reader, d.name) && n.namespace == GetString(reader, d.namespace)
      && n.isStatic == IsStatic(d) && n.isAbstract == IsAbstract(d) && n.isSealed == IsSealed(d)
    modifies factory.typeMap
    ensures factory.Valid() && Extends(old(factory.typeMap.keys), factory.typeMap.keys)
    ensures GrowsBut(old(factory.typeMap.nodes), factory.typeMap.nodes, NewType(), t)
    ensures TypeModelled(factory.typeMap.nodes[t].data, reader, d, factory.typeMap.keys, old(factory.typeMap.nodes[t].data.implements))
  {
    ghost var k0, n0 := factory.typeMap.keys, factory.typeMap.nodes;
    ghost var prior := n0[t].data.implements;
    assert forall j :: 0 <= j < |d.interfaces| ==> ValidEntity(reader, d.interfaces[j]) by {
      assert forall j :: 0 <= j < |d.interfaces| ==> d.interfaces[j] in d.interfaces;
    }
    SetBaseType(reader, factory, d, t);
    ghost var k1, n1 := factory.typeMap.keys, factory.typeMap.nodes;
    ghost var base := n1[t].data.baseType;
    var added := SetImplementedInterfaces(reader, factory, d.interfaces, t);
    ExtendsTransitive(k0, k1, factory.typeMap.keys);
    GrowsButTwice(n0, n1, factory.typeMap.nodes, NewType(), t);
    if base.Some? {
      ExtendsKeeps(k1, factory.typeMap.keys, base.value);
    }
    assert (prior + added)[..|prior|] == prior && (prior + added)[|prior|..] == added;
  }

  /** Lines 29 to 40 of `ScanType`: the type node, written, created in the database, with its references. */
  method WriteType(reader: MetadataReader, factory: NodeFactory, db: Transaction<NodeRef>, d: TypeDefinition) returns (t: nat)
    requires factory.Valid() && WellFormed(reader) && ValidTypeDefinition(reader, d)
    modifies db, factory.typeMap
    ensures factory.Valid() && Extends(old(factory.typeMap.keys), factory.typeMap.keys)
    ensures t < |factory.typeMap.keys| && factory.typeMap.keys[t] == DefinitionId(reader, d)
    ensures GrowsBut(old(factory.typeMap.nodes), factory.typeMap.nodes, NewType(), t)
    ensures TypeModelled(factory.typeMap.nodes[t].data, reader, d, factory.typeMap.keys,
                         Before(old(factory.typeMap.nodes), t, NewType()).implements)
    ensures db.events == old(db.events) + [NodeCreated(TypeRef(t))]
  {
    ghost var k0, n0 := factory.typeMap.keys, factory.typeMap.nodes;
    t := CreateTypeNode(reader, factory, d);
    db.CreateNode(TypeRef(t));
    ghost var k1, n1 := factory.typeMap.keys, factory.typeMap.nodes;
    SetTypeReferences(reader, factory, d, t);
    ExtendsTransitive(k0, k1, factory.typeMap.keys);
    GrowsButTwice(n0, n1, factory.typeMap.nodes, NewType(), t);
  }

  /**
   * Lines 29 to 55 of `ScanType`, for a type that is included. `t` is the
   * type's node and `ps` the methods it defines, an exception from a method
   * scan ending the scan where it is raised.
   */
  method ScanIncludedType(reader: MetadataReader, factory: NodeFactory, db: Transaction<NodeRef>, d: TypeDefinition)
    returns (r: Result<nat>, ghost t: nat, ghost ps: seq<nat>)
    requires factory.Valid() && WellFormed(reader) && ValidTypeDefinition(reader, d)
    modifies db, factory.typeMap, factory.methodMap
    ensures factory.Valid()
    ensures Extends(old(factory.typeMap.keys), factory.typeMap.keys) && Extends(old(factory.methodMap.keys), factory.methodMap.keys)
    ensures t < |factory.typeMap.keys| && factory.typeMap.keys[t] == DefinitionId(reader, d)
    ensures GrowsBut(old(factory.typeMap.nodes), factory.typeMap.nodes, NewType(), t)
    ensures TypeModelled(factory.typeMap.nodes[t].data, reader, d, factory.typeMap.keys,
                         Before(old(factory.typeMap.nodes), t, NewType()).implements)
    ensures db.events == old(db.events) + [NodeCreated(TypeRef(t))] + MethodEdges(t, ps)
    ensures r.Ok? <==> ScannedMethods(reader, d.methods).Ok?
    ensures r.Err? ==> ScannedMethods(reader, d.methods) == Err(r.error)
    ensures r.Ok? ==> r.value == t && RefersTo(factory.methodMap.keys, ps, ScannedMethods(reader, d.methods).value)
  {
    ghost var n0 := factory.typeMap.nodes;
    var model := WriteType(reader, factory, db, d);
    t := model;
    ghost var k2, n2 := factory.typeMap.keys, factory.typeMap.nodes;
    assert forall j :: 0 <= j < |d.methods| ==> ValidMethod(reader, d.methods[j]) by {
      assert forall j :: 0 <= j < |d.methods| ==> d.methods[j] in d.methods;
    }
    var methods;
    methods, ps := ScanMethods(reader, factory, db, d.methods, model);
    ExtendsTransitive(old(factory.typeMap.keys), k2, factory.typeMap.keys);
    GrowsButStep(n0, n2, factory.typeMap.nodes, NewType(), model);
    TypeModelledExtended(n2[model].data, reader, d, k2, factory.typeMap.keys, Before(n0, model, NewType()).implements);
    if methods.Err? {
      return Err(methods.error), t, ps;
    }
    r := Ok(model);
  }

  /**
   * `ScanType`: a type that is not included gives null and changes nothing,
   * a type whose name cannot be read throws before anything is written, and
   * an included type is scanned by `ScanIncludedType`.
   */
  method ScanType(reader: MetadataReader, factory: NodeFactory, db: Transaction<NodeRef>, d: TypeDefinition)
    returns (r: Result<Option<nat>>, ghost t: nat, ghost ps: seq<nat>)
    requires factory.Valid() && WellFormed(reader) && ValidTypeDefinition(reader, d)
    modifies db, factory.typeMap, factory.methodMap
    ensures factory.Valid()
    ensures Extends(old(factory.typeMap.keys), factory.typeMap.keys) && Extends(old(factory.methodMap.keys), factory.methodMap.keys)
    ensures IncludeType(reader, d).Err? ==>
      r == Err(IncludeType(reader, d).error) && unchanged(db) && unchanged(factory.typeMap) && unchanged(factory.methodMap)
    ensures IncludeType(reader, d) == Ok(false) ==>
      r == Ok(None) && unchanged(db) && unchanged(factory.typeMap) && unchanged(factory.methodMap)
    ensures IncludeType(reader, d) == Ok(true) ==>
      && t < |factory.typeMap.keys| && factory.typeMap.keys[t] == DefinitionId(reader, d)
      && GrowsBut(old(factory.typeMap.nodes), factory.typeMap.nodes, NewType(), t)
      && TypeModelled(factory.typeMap.nodes[t].data, reader, d, factory.typeMap.keys,
                      Before(old(factory.typeMap.nodes), t, NewType()).implements)
      && db.events == old(db.events) + [NodeCreated(TypeRef(t))] + MethodEdges(t, ps)
      && (r.Ok? <==> ScannedMethods(reader, d.methods).Ok?)
      && (r.Err? ==> ScannedMethods(reader, d.methods) == Err(r.error))
      && (r.Ok? ==> r == Ok(Some(t)) && RefersTo(factory.methodMap.keys, ps, ScannedMethods(reader, d.methods).value))
  {
    t, ps := 0, [];
    var included := IncludeType(reader, d);
    if included.Err? {
      ExtendsReflexive(factory.typeMap.keys);
      ExtendsReflexive(factory.methodMap.keys);
      return Err(included.error), t, ps;
    }
    if !included.value {
      ExtendsReflexive(factory.typeMap.keys);
      ExtendsReflexive(factory.methodMap.keys);
      return Ok(None), t, ps;
    }
    var model;
    model, t, ps := ScanIncludedType(reader, factory, db, d);
    if model.Err? {
      return Err(model.error), t, ps;
    }
    r := Ok(Some(model.value));
  }
}
