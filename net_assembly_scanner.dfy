/**
 * Net.Scanner/AssemblyScanner.cs: one Cecil module becomes an assembly node
 * whose references are the interned referenced assemblies and whose defined
 * types are the scanned included types, in module order.
 */
module NetAssemblyScanner {
  import opened Wrappers
  import opened Strings
  import opened Graph
  import opened Linq
  import opened NetTypeKeys
  import opened NetModel
  import opened NetModelFactory
  import opened Flags
  import TA = TypeAttributes
  import Cecil
  import opened NetTypeScanner

  /** `IncludeType`: no SpecialName flag and no compiler-generated `<...>` name; visibility is not looked at. */
  predicate IncludeType(def: Cecil.TypeDefinition)
  {
    !HasFlag(def.attributes, TA.SpecialName) && !StartsWith(def.name, "<")
  }

  /** `Module.Types.Where(IncludeType)`. */
  function IncludedTypes(m: Cecil.ModuleDefinition): seq<Cecil.TypeDefinition>
  {
    Where(m.types, IncludeType)
  }

  /** The three visibility bits never decide inclusion: internal and nested types are kept like public ones. */
  lemma VisibilityIsNotFiltered(def: Cecil.TypeDefinition, visibility: bv32)
    ensures IncludeType(def.(attributes := (def.attributes & !TA.VisibilityMask) | (visibility & TA.VisibilityMask)))
        == IncludeType(def)
  {
  }

  /** The types of a module that reach the model are exactly its included ones. */
  lemma IncludedTypesMembership(m: Cecil.ModuleDefinition, def: Cecil.TypeDefinition)
    ensures def in IncludedTypes(m) <==> def in m.types && IncludeType(def)
  {
    WhereMembership(m.types, IncludeType, def);
  }

  function DefinitionKeys(defs: seq<Cecil.TypeDefinition>): (ks: seq<TypeKey>)
    ensures |ks| == |defs| && forall j :: 0 <= j < |defs| ==> ks[j] == defs[j].key
  {
    seq(|defs|, j requires 0 <= j < |defs| => defs[j].key)
  }

  /** No `ScanType` of `defs` throws. */
  predicate AllTypesScan(defs: seq<Cecil.TypeDefinition>)
  {
    forall i :: 0 <= i < |defs| ==> ScanTypeFailure(defs[i]).None?
  }

  /** `defs[j]` is the first type whose scan throws, and it throws `e`. */
  predicate FirstFailingType(defs: seq<Cecil.TypeDefinition>, j: nat, e: Failure)
  {
    && j < |defs| && ScanTypeFailure(defs[j]) == Some(e)
    && forall i :: 0 <= i < j ==> ScanTypeFailure(defs[i]).None?
  }

  /** A module whose types do not all scan has exactly one first failing type, so the exception is determined. */
  lemma FirstFailingTypeUnique(defs: seq<Cecil.TypeDefinition>, j: nat, e: Failure, k: nat, f: Failure)
    requires FirstFailingType(defs, j, e) && FirstFailingType(defs, k, f)
    ensures j == k && e == f
  {
  }

  /** One more type scanned: either the prefix still scans, or this type is the first to fail. */
  lemma TypeScanStep(defs: seq<Cecil.TypeDefinition>, j: nat)
    requires j < |defs| && AllTypesScan(defs[..j])
    ensures ScanTypeFailure(defs[j]).None? ==> AllTypesScan(defs[..j + 1])
    ensures ScanTypeFailure(defs[j]).Some? ==> FirstFailingType(defs, j, ScanTypeFailure(defs[j]).value)
  {
    assert forall i :: 0 <= i < j ==> defs[..j][i] == defs[i];
    assert forall i :: 0 <= i <= j ==> defs[..j + 1][i] == defs[i];
  }

  /** The types at `ts` model the first |ts| definitions. */
  ghost predicate TypesModelled(nodes: seq<Node<int, NetType>>, ts: seq<nat>, defs: seq<Cecil.TypeDefinition>, assembly: nat,
                                typeKeys: seq<TypeKey>, methodKeys: seq<MethodKey>, propertyKeys: seq<PropertyKey>)
  {
    && |ts| <= |defs|
    && forall i :: 0 <= i < |ts| ==>
         ts[i] < |nodes| && TypeModelled(nodes[ts[i]].data, defs[i], assembly, typeKeys, methodKeys, propertyKeys)
  }

  /**
   * One more type scanned under a key no earlier type of the module has:
   * the scan evolves every other node, so the earlier types stay modelled.
   */
  lemma TypesModelledStep(k1: seq<TypeKey>, n1: seq<Node<int, NetType>>, k2: seq<TypeKey>, n2: seq<Node<int, NetType>>,
                          mk1: seq<MethodKey>, mk2: seq<MethodKey>, pk1: seq<PropertyKey>, pk2: seq<PropertyKey>,
                          ts: seq<nat>, defs: seq<Cecil.TypeDefinition>, assembly: nat, q: nat,
                          renamed: set<TypeKey>, retyped: set<TypeKey>)
    requires Distinct(DefinitionKeys(defs)) && |ts| < |defs|
    requires RefersTo(k1, ts, DefinitionKeys(defs)[..|ts|]) && TypesModelled(n1, ts, defs, assembly, k1, mk1, pk1)
    requires TypesEvolveBut(k1, n1, k2, n2, renamed, retyped, q) && TypesNamed(k2, n2)
    requires Extends(mk1, mk2) && Extends(pk1, pk2)
    requires q < |k2| && k2[q] == defs[|ts|].key
    requires TypeModelled(n2[q].data, defs[|ts|], assembly, k2, mk2, pk2)
    ensures TypesModelled(n2, ts + [q], defs, assembly, k2, mk2, pk2)
  {
    var keys := DefinitionKeys(defs);
    var ts' := ts + [q];
    forall i | 0 <= i < |ts'|
      ensures ts'[i] < |n2| && TypeModelled(n2[ts'[i]].data, defs[i], assembly, k2, mk2, pk2)
    {
      if i < |ts| {
        var p := ts[i];
        assert k1[p] == keys[..|ts|][i] == defs[i].key;
        ExtendsKeeps(k1, k2, p);
        assert keys[i] != keys[|ts|];
        TypeModelledKept(n1[p].data, n2[p].data, defs[i], assembly, k1, k2, mk1, mk2, pk1, pk2, renamed, retyped);
      }
    }
  }

  /**
   * `CreateAssemblyReferences`: `CreateAssemblyModel` on every assembly
   * reference of the module, in order. Interning only appends: the nodes
   * already there stay as they were, and each new one is a fresh node named
   * after its key.
   */
  method CreateAssemblyReferences(factory: ModelFactory, refs: seq<AssemblyKey>) returns (ps: seq<nat>)
    requires factory.AssembliesValid()
    modifies factory.assemblyMap
    ensures factory.AssembliesValid()
    ensures Extends(old(factory.assemblyMap.keys), factory.assemblyMap.keys)
    ensures Extends(old(factory.assemblyMap.nodes), factory.assemblyMap.nodes)
    ensures forall i :: |old(factory.assemblyMap.nodes)| <= i < |factory.assemblyMap.nodes| ==>
      factory.assemblyMap.nodes[i].data == NewAssembly().(name := Some(factory.assemblyMap.keys[i].name))
    ensures RefersTo(factory.assemblyMap.keys, ps, refs)
  {
    ghost var k0, n0 := factory.assemblyMap.keys, factory.assemblyMap.nodes;
    ExtendsReflexive(k0);
    ExtendsReflexive(n0);
    ps := [];
    for j := 0 to |refs|
      invariant factory.AssembliesValid()
      invariant Extends(k0, factory.assemblyMap.keys) && Extends(n0, factory.assemblyMap.nodes)
      invariant forall i :: |n0| <= i < |factory.assemblyMap.nodes| ==>
        factory.assemblyMap.nodes[i].data == NewAssembly().(name := Some(factory.assemblyMap.keys[i].name))
      invariant RefersTo(factory.assemblyMap.keys, ps, refs[..j])
    {
      ghost var k1, n1 := factory.assemblyMap.keys, factory.assemblyMap.nodes;
      var p := factory.CreateAssemblyModel(refs[j]);
      if factory.assemblyMap.keys == k1 {
        ExtendsReflexive(k1);
      } else {
        assert factory.assemblyMap.keys[..|k1|] == k1;
        assert factory.assemblyMap.nodes[..|n1|] == n1;
        ExtendsTransitive(n0, n1, factory.assemblyMap.nodes);
      }
      RefersToStep(k0, k1, factory.assemblyMap.keys, ps, refs, j, p);
      ps := ps + [p];
    }
    RefersToAll(factory.assemblyMap.keys, ps, refs);
  }

  /**
   * `CreateTypes`: `ScanType` on every included type, in module order, each
   * with the assembly node at `assembly`; the first scan that throws ends it.
   */
  method CreateTypes(factory: ModelFactory, defs: seq<Cecil.TypeDefinition>, assembly: nat) returns (r: Result<seq<nat>>)
    requires factory.Valid()
    modifies factory.typeMap, factory.methodMap, factory.parameterMap, factory.propertyMap
    ensures factory.Valid()
    ensures Extends(old(factory.typeMap.keys), factory.typeMap.keys)
    ensures Extends(old(factory.methodMap.keys), factory.methodMap.keys)
    ensures Extends(old(factory.parameterMap.keys), factory.parameterMap.keys)
    ensures Extends(old(factory.propertyMap.keys), factory.propertyMap.keys)
    ensures r.Ok? <==> AllTypesScan(defs)
    ensures r.Err? ==> exists j :: FirstFailingType(defs, j, r.error)
    ensures r.Ok? ==> RefersTo(factory.typeMap.keys, r.value, DefinitionKeys(defs))
    ensures r.Ok? && Distinct(DefinitionKeys(defs)) ==>
      TypesModelled(factory.typeMap.nodes, r.value, defs, assembly,
                    factory.typeMap.keys, factory.methodMap.keys, factory.propertyMap.keys)
  {
    ghost var t0, m0, q0, p0 := factory.typeMap.keys, factory.methodMap.keys, factory.parameterMap.keys, factory.propertyMap.keys;
    ExtendsReflexive(t0);
    ExtendsReflexive(m0);
    ExtendsReflexive(q0);
    ExtendsReflexive(p0);
    var positions := [];
    for j := 0 to |defs|
      invariant factory.Valid()
      invariant Extends(t0, factory.typeMap.keys) && Extends(m0, factory.methodMap.keys)
      invariant Extends(q0, factory.parameterMap.keys) && Extends(p0, factory.propertyMap.keys)
      invariant AllTypesScan(defs[..j])
      invariant RefersTo(factory.typeMap.keys, positions, DefinitionKeys(defs)[..j])
      invariant Distinct(DefinitionKeys(defs)) ==>
        TypesModelled(factory.typeMap.nodes, positions, defs, assembly,
                      factory.typeMap.keys, factory.methodMap.keys, factory.propertyMap.keys)
    {
      var scanned := CreateTypeAt(factory, defs, j, positions, assembly, t0, m0, q0, p0);
      TypeScanStep(defs, j);
      if scanned.Err? {
        return Err(scanned.error);
      }
      positions := scanned.value;
    }
    assert defs[..|defs|] == defs;
    RefersToAll(factory.typeMap.keys, positions, DefinitionKeys(defs));
    r := Ok(positions);
  }

  /** One iteration of `CreateTypes`: the type at `j`. */
  method CreateTypeAt(factory: ModelFactory, defs: seq<Cecil.TypeDefinition>, j: nat, positions: seq<nat>, assembly: nat,
                      ghost t0: seq<TypeKey>, ghost m0: seq<MethodKey>, ghost q0: seq<MethodParameterKey>, ghost p0: seq<PropertyKey>)
    returns (r: Result<seq<nat>>)
    requires factory.Valid() && j < |defs|
    requires Extends(t0, factory.typeMap.keys) && Extends(m0, factory.methodMap.keys)
    requires Extends(q0, factory.parameterMap.keys) && Extends(p0, factory.propertyMap.keys)
    requires RefersTo(factory.typeMap.keys, positions, DefinitionKeys(defs)[..j])
    requires Distinct(DefinitionKeys(defs)) ==>
      TypesModelled(factory.typeMap.nodes, positions, defs, assembly,
                    factory.typeMap.keys, factory.methodMap.keys, factory.propertyMap.keys)
    modifies factory.typeMap, factory.methodMap, factory.parameterMap, factory.propertyMap
    ensures factory.Valid()
    ensures Extends(t0, factory.typeMap.keys) && Extends(m0, factory.methodMap.keys)
    ensures Extends(q0, factory.parameterMap.keys) && Extends(p0, factory.propertyMap.keys)
    ensures r.Ok? <==> ScanTypeFailure(defs[j]).None?
    ensures r.Err? ==> ScanTypeFailure(defs[j]) == Some(r.error)
    ensures r.Ok? ==> RefersTo(factory.typeMap.keys, r.value, DefinitionKeys(defs)[..j + 1])
    ensures r.Ok? && Distinct(DefinitionKeys(defs)) ==>
      TypesModelled(factory.typeMap.nodes, r.value, defs, assembly,
                    factory.typeMap.keys, factory.methodMap.keys, factory.propertyMap.keys)
  {
    ghost var tk1, tn1 := factory.typeMap.keys, factory.typeMap.nodes;
    ghost var mk1, qk1, pk1 := factory.methodMap.keys, factory.parameterMap.keys, factory.propertyMap.keys;
    var scanned := ScanType(factory, defs[j], assembly);
    if scanned.Err? {
      return Err(scanned.error);
    }
    TypeAppended(t0, tk1, tn1, factory.typeMap.keys, factory.typeMap.nodes, m0, mk1, factory.methodMap.keys,
                 q0, qk1, factory.parameterMap.keys, p0, pk1, factory.propertyMap.keys,
                 positions, defs, j, assembly, scanned.value);
    r := Ok(positions + [scanned.value]);
  }

  /** The bookkeeping of `CreateTypeAt` once `ScanType` has returned the position `q` of `defs[j]`. */
  lemma TypeAppended(t0: seq<TypeKey>, tk1: seq<TypeKey>, tn1: seq<Node<int, NetType>>, tk2: seq<TypeKey>, tn2: seq<Node<int, NetType>>,
                     m0: seq<MethodKey>, mk1: seq<MethodKey>, mk2: seq<MethodKey>,
                     q0: seq<MethodParameterKey>, qk1: seq<MethodParameterKey>, qk2: seq<MethodParameterKey>,
                     p0: seq<PropertyKey>, pk1: seq<PropertyKey>, pk2: seq<PropertyKey>,
                     positions: seq<nat>, defs: seq<Cecil.TypeDefinition>, j: nat, assembly: nat, q: nat)
    requires j < |defs| && Extends(t0, tk1) && Extends(m0, mk1) && Extends(q0, qk1) && Extends(p0, pk1)
    requires Extends(tk1, tk2) && Extends(mk1, mk2) && Extends(qk1, qk2) && Extends(pk1, pk2)
    requires RefersTo(tk1, positions, DefinitionKeys(defs)[..j])
    requires Distinct(DefinitionKeys(defs)) ==> TypesModelled(tn1, positions, defs, assembly, tk1, mk1, pk1)
    requires q < |tk2| && tk2[q] == defs[j].key && TypesNamed(tk2, tn2)
    requires TypeModelled(tn2[q].data, defs[j], assembly, tk2, mk2, pk2)
    requires TypesEvolveBut(tk1, tn1, tk2, tn2, TypeRenames(defs[j]), TypeRetypes(defs[j]), q)
    ensures Extends(t0, tk2) && Extends(m0, mk2) && Extends(q0, qk2) && Extends(p0, pk2)
    ensures RefersTo(tk2, positions + [q], DefinitionKeys(defs)[..j + 1])
    ensures Distinct(DefinitionKeys(defs)) ==> TypesModelled(tn2, positions + [q], defs, assembly, tk2, mk2, pk2)
  {
    ExtendsTransitive(t0, tk1, tk2);
    ExtendsTransitive(m0, mk1, mk2);
    ExtendsTransitive(q0, qk1, qk2);
    ExtendsTransitive(p0, pk1, pk2);
    if Distinct(DefinitionKeys(defs)) {
      assert j == |positions|;
      TypesModelledStep(tk1, tn1, tk2, tn2, mk1, mk2, pk1, pk2, positions, defs, assembly, q,
                        TypeRenames(defs[j]), TypeRetypes(defs[j]));
    }
    RefersToStep(tk1, tk1, tk2, positions, DefinitionKeys(defs), j, q);
  }

  /**
   * Lines 26 and 27 of `Scan`: intern the assembly, then set its References.
   * Only that node is written; the other nodes interned before stay as they
   * were, and those interned now are fresh.
   */
  method ReferAssembly(factory: ModelFactory, key: AssemblyKey, refs: seq<AssemblyKey>) returns (a: nat)
    requires factory.AssembliesValid()
    modifies factory.assemblyMap
    ensures factory.AssembliesValid() && Extends(old(factory.assemblyMap.keys), factory.assemblyMap.keys)
    ensures a < |factory.assemblyMap.nodes| && factory.assemblyMap.keys[a] == key
    ensures factory.assemblyMap.nodes[a].data.name == Some(key.name)
    ensures RefersTo(factory.assemblyMap.keys, factory.assemblyMap.nodes[a].data.references, refs)
    ensures KeptBut(old(factory.assemblyMap.nodes), factory.assemblyMap.nodes, a)
    ensures forall i :: |old(factory.assemblyMap.nodes)| <= i < |factory.assemblyMap.nodes| && i != a ==>
      factory.assemblyMap.nodes[i].data == NewAssembly().(name := Some(factory.assemblyMap.keys[i].name))
  {
    ghost var a0, an0 := factory.assemblyMap.keys, factory.assemblyMap.nodes;
    a := factory.CreateAssemblyModel(key);
    ghost var a1, an1 := factory.assemblyMap.keys, factory.assemblyMap.nodes;
    if a1 == a0 {
      ExtendsReflexive(a0);
    } else {
      assert a1[..|a0|] == a0;
    }
    var references := CreateAssemblyReferences(factory, refs);
    ghost var an2 := factory.assemblyMap.nodes;
    ExtendsTransitive(a0, a1, factory.assemblyMap.keys);
    ExtendsKeeps(a1, factory.assemblyMap.keys, a);
    ExtendsKeeps(an1, an2, a);
    var model := factory.assemblyMap.nodes[a].data;
    factory.UpdateAssembly(a, model.(references := references));
    AssemblyWritten(a0, an0, a1, an1, factory.assemblyMap.keys, an2, factory.assemblyMap.nodes, a);
  }

  /**
   * `Scan`: intern the assembly, set its References, then its DefinedTypes.
   * The assembly node ends up holding exactly its name and those two lists;
   * every other assembly node is left as it was, and the new ones are fresh.
   */
  method Scan(factory: ModelFactory, assembly: Cecil.AssemblyDefinition, m: Cecil.ModuleDefinition) returns (r: Result<nat>)
    requires factory.Valid()
    modifies factory.assemblyMap, factory.typeMap, factory.methodMap, factory.parameterMap, factory.propertyMap
    ensures factory.Valid()
    ensures Extends(old(factory.assemblyMap.keys), factory.assemblyMap.keys)
    ensures Extends(old(factory.typeMap.keys), factory.typeMap.keys)
    ensures Extends(old(factory.methodMap.keys), factory.methodMap.keys)
    ensures Extends(old(factory.parameterMap.keys), factory.parameterMap.keys)
    ensures Extends(old(factory.propertyMap.keys), factory.propertyMap.keys)
    ensures r.Ok? <==> AllTypesScan(IncludedTypes(m))
    ensures r.Err? ==> exists j :: FirstFailingType(IncludedTypes(m), j, r.error)
    ensures r.Ok? ==> r.value < |factory.assemblyMap.nodes| && factory.assemblyMap.keys[r.value] == assembly.key
    ensures r.Ok? ==> AssemblyScanned(factory.assemblyMap.nodes[r.value].data, assembly, m,
                                      factory.assemblyMap.keys, factory.typeMap.keys)
    ensures r.Ok? && Distinct(DefinitionKeys(IncludedTypes(m))) ==>
      TypesModelled(factory.typeMap.nodes, factory.assemblyMap.nodes[r.value].data.definedTypes, IncludedTypes(m),
                    r.value, factory.typeMap.keys, factory.methodMap.keys, factory.propertyMap.keys)
    ensures r.Ok? ==> KeptBut(old(factory.assemblyMap.nodes), factory.assemblyMap.nodes, r.value)
    ensures r.Ok? ==> forall i :: |old(factory.assemblyMap.nodes)| <= i < |factory.assemblyMap.nodes| && i != r.value ==>
      factory.assemblyMap.nodes[i].data == NewAssembly().(name := Some(factory.assemblyMap.keys[i].name))
  {
    var a := ReferAssembly(factory, assembly.key, m.assemblyReferences);
    ghost var an1 := factory.assemblyMap.nodes;
    var types := CreateTypes(factory, IncludedTypes(m), a);
    if types.Err? {
      return Err(types.error);
    }
    var model := factory.assemblyMap.nodes[a].data;
    factory.UpdateAssembly(a, model.(definedTypes := types.value));
    KeptButWrite(old(factory.assemblyMap.nodes), an1, a, factory.assemblyMap.nodes[a]);
    r := Ok(a);
  }

  /** What `Scan` leaves in the assembly node. */
  predicate AssemblyScanned(n: NetAssembly, assembly: Cecil.AssemblyDefinition, m: Cecil.ModuleDefinition,
                            assemblyKeys: seq<AssemblyKey>, typeKeys: seq<TypeKey>)
  {
    && n.name == Some(assembly.key.name)
    && RefersTo(assemblyKeys, n.references, m.assemblyReferences)
    && RefersTo(typeKeys, n.definedTypes, DefinitionKeys(IncludedTypes(m)))
  }

  /**
   * The assembly arena across `Scan`: interning hits or appends at `a`, the
   * references only append fresh nodes, and the writes touch `a` alone.
   */
  lemma AssemblyWritten(a0: seq<AssemblyKey>, an0: seq<Node<int, NetAssembly>>,
                        a1: seq<AssemblyKey>, an1: seq<Node<int, NetAssembly>>,
                        a2: seq<AssemblyKey>, an2: seq<Node<int, NetAssembly>>, an3: seq<Node<int, NetAssembly>>, a: nat)
    requires a < |an1| && (an1 == an0 || (a == |an0| && |an1| == |an0| + 1 && an1[..|an0|] == an0))
    requires Extends(an1, an2) && |a2| == |an2|
    requires forall i :: |an1| <= i < |an2| ==> an2[i].data == NewAssembly().(name := Some(a2[i].name))
    requires |an3| == |an2| && KeptBut(an2, an3, a)
    ensures KeptBut(an0, an3, a)
    ensures forall i :: |an0| <= i < |an3| && i != a ==> an3[i].data == NewAssembly().(name := Some(a2[i].name))
  {
    forall i | 0 <= i < |an0| && i != a
      ensures an3[i] == an0[i]
    {
      ExtendsKeeps(an1, an2, i);
      if an1 != an0 {
        assert an1[..|an0|][i] == an0[i];
      }
    }
  }
}
