/**
 * DotnetScanner/Scanner/AssemblyScanner.cs: the assembly a metadata reader
 * has opened becomes an assembly node, created in the database at once; its
 * references are interned as assembly nodes, and each of its type
 * definitions is scanned, every type kept getting a DEFINES_TYPE edge.
 */
module DotnetAssemblyScanner {
  import opened Wrappers
  import opened Srm
  import opened Graph
  import opened NetModelFactory
  import opened DotnetIds
  import opened DotnetModel
  import opened DotnetNodeFactory
  import opened DotnetMethodScanner
  import opened DotnetTypeScanner

  /**
   * The ids `CreateAssemblyModel` interns the references under, in order; a
   * reference without a name makes the dictionary lookup throw.
   */
  function ReferenceIds(reader: MetadataReader, rs: seq<AssemblyReference>): (r: Result<seq<string>>)
    requires forall i :: 0 <= i < |rs| ==> ValidString(reader, rs[i].name)
    ensures r.Ok? <==> forall i :: 0 <= i < |rs| ==> !rs[i].name.IsNil()
    ensures r.Err? ==> r.error == ArgumentNull
    ensures r.Ok? ==> |r.value| == |rs| && forall i :: 0 <= i < |rs| ==> Some(r.value[i]) == GetString(reader, rs[i].name)
    decreases |rs|
  {
    if |rs| == 0 then Ok([])
    else
      var init := ReferenceIds(reader, rs[..|rs| - 1]);
      var name := GetString(reader, rs[|rs| - 1].name);
      assert forall i :: 0 <= i < |rs| - 1 ==> rs[..|rs| - 1][i] == rs[i];
      if init.Err? then init
      else if name.None? then Err(ArgumentNull)
      else Ok(init.value + [name.value])
  }

  /** The exception `ScanType` throws on a type, if any: its name, or the first of its methods that throws. */
  function TypeFailure(reader: MetadataReader, d: TypeDefinition): (f: Option<Failure>)
    requires WellFormed(reader) && ValidTypeDefinition(reader, d)
    ensures f.Some? <==> IncludeType(reader, d).Err? || (IncludeType(reader, d) == Ok(true) && ScannedMethods(reader, d.methods).Err?)
  {
    assert forall i :: 0 <= i < |d.methods| ==> ValidMethod(reader, d.methods[i]) by {
      assert forall i :: 0 <= i < |d.methods| ==> d.methods[i] in d.methods;
    }
    var included := IncludeType(reader, d);
    if included.Err? then Some(included.error)
    else if !included.value then None
    else
      var methods := ScannedMethods(reader, d.methods);
      if methods.Err? then Some(methods.error) else None
  }

  /**
   * The loop of lines 39 to 49: the ids of the types it adds, in order, or
   * the failure of the first type whose scan throws.
   */
  function ScannedTypes(reader: MetadataReader, ds: seq<TypeDefinition>): (r: Result<seq<string>>)
    requires WellFormed(reader) && forall i :: 0 <= i < |ds| ==> ValidTypeDefinition(reader, ds[i])
    ensures r.Ok? ==> |r.value| <= |ds|
    decreases |ds|
  {
    if |ds| == 0 then Ok([])
    else
      var prefix := ScannedTypes(reader, ds[..|ds| - 1]);
      var d := ds[|ds| - 1];
      if prefix.Err? then prefix
      else if TypeFailure(reader, d).Some? then Err(TypeFailure(reader, d).value)
      else if IncludeType(reader, d) == Ok(true) then Ok(prefix.value + [DefinitionId(reader, d)])
      else prefix
  }

  lemma ScannedTypesStep(reader: MetadataReader, ds: seq<TypeDefinition>, j: nat)
    requires WellFormed(reader) && forall i :: 0 <= i < |ds| ==> ValidTypeDefinition(reader, ds[i])
    requires j < |ds|
    ensures ScannedTypes(reader, ds[..j + 1]) ==
      var prefix := ScannedTypes(reader, ds[..j]);
      if prefix.Err? then prefix
      else if TypeFailure(reader, ds[j]).Some? then Err(TypeFailure(reader, ds[j]).value)
      else if IncludeType(reader, ds[j]) == Ok(true) then Ok(prefix.value + [DefinitionId(reader, ds[j])])
      else prefix
  {
    assert ds[..j + 1][..j] == ds[..j];
  }

  /** A failing prefix is the failure of the whole type loop: the scan stops there. */
  lemma {:induction false} ScannedTypesPrefixError(reader: MetadataReader, ds: seq<TypeDefinition>, k: nat)
    requires WellFormed(reader) && forall i :: 0 <= i < |ds| ==> ValidTypeDefinition(reader, ds[i])
    requires k <= |ds| && ScannedTypes(reader, ds[..k]).Err?
    ensures ScannedTypes(reader, ds) == ScannedTypes(reader, ds[..k])
    decreases |ds| - k
  {
    if k < |ds| {
      ScannedTypesStep(reader, ds, k);
      ScannedTypesPrefixError(reader, ds, k + 1);
    } else {
      assert ds[..k] == ds;
    }
  }

  /** The type loop fails exactly when one of the types throws, and then with the failure of the first that does. */
  lemma {:induction false} ScannedTypesFail(reader: MetadataReader, ds: seq<TypeDefinition>)
    requires WellFormed(reader) && forall i :: 0 <= i < |ds| ==> ValidTypeDefinition(reader, ds[i])
    ensures ScannedTypes(reader, ds).Err? <==> exists k :: 0 <= k < |ds| && TypeFailure(reader, ds[k]).Some?
    ensures ScannedTypes(reader, ds).Err? ==>
      exists k :: 0 <= k < |ds| && TypeFailure(reader, ds[k]) == Some(ScannedTypes(reader, ds).error)
        && forall i :: 0 <= i < k ==> TypeFailure(reader, ds[i]).None?
    decreases |ds|
  {
    if |ds| > 0 {
      var init := ds[..|ds| - 1];
      ScannedTypesFail(reader, init);
      assert forall i :: 0 <= i < |init| ==> init[i] == ds[i];
      if ScannedTypes(reader, init).Err? {
        var k :| 0 <= k < |init| && TypeFailure(reader, init[k]) == Some(ScannedTypes(reader, init).error)
          && forall i :: 0 <= i < k ==> TypeFailure(reader, init[i]).None?;
        assert TypeFailure(reader, ds[k]).Some?;
      } else if TypeFailure(reader, ds[|ds| - 1]).Some? {
        assert forall i :: 0 <= i < |ds| - 1 ==> TypeFailure(reader, ds[i]).None?;
      } else {
        assert forall i :: 0 <= i < |ds| ==> TypeFailure(reader, ds[i]).None?;
      }
    }
  }

  /** Every type the loop adds is a definition it includes: public, named, and not compiler-generated. */
  lemma {:induction false} ScannedTypesAreIncluded(reader: MetadataReader, ds: seq<TypeDefinition>, j: nat)
    requires WellFormed(reader) && forall i :: 0 <= i < |ds| ==> ValidTypeDefinition(reader, ds[i])
    requires ScannedTypes(reader, ds).Ok? && j < |ScannedTypes(reader, ds).value|
    ensures exists i :: 0 <= i < |ds| && IncludeType(reader, ds[i]) == Ok(true) && DefinitionId(reader, ds[i]) == ScannedTypes(reader, ds).value[j]
    decreases |ds|
  {
    var init := ds[..|ds| - 1];
    var ids := ScannedTypes(reader, init).value;
    if j < |ids| {
      ScannedTypesAreIncluded(reader, init, j);
      var i :| 0 <= i < |init| && IncludeType(reader, init[i]) == Ok(true) && DefinitionId(reader, init[i]) == ids[j];
      assert ds[i] == init[i];
    } else {
      assert IncludeType(reader, ds[|ds| - 1]) == Ok(true);
    }
  }

  /** The reader's types as a sequence every member of which is valid. */
  lemma TypeDefinitionsValid(reader: MetadataReader)
    requires WellFormed(reader)
    ensures forall i :: 0 <= i < |reader.typeDefinitions| ==> ValidTypeDefinition(reader, reader.typeDefinitions[i])
  {
    assert forall i :: 0 <= i < |reader.typeDefinitions| ==> reader.typeDefinitions[i] in reader.typeDefinitions;
  }

  lemma AssemblyReferencesValid(reader: MetadataReader)
    requires WellFormed(reader)
    ensures forall i :: 0 <= i < |reader.assemblyReferences| ==> ValidString(reader, reader.assemblyReferences[i].name)
  {
    assert forall i :: 0 <= i < |reader.assemblyReferences| ==> reader.assemblyReferences[i] in reader.assemblyReferences;
  }

  /**
   * The exception `Scan` throws, if any: a null assembly name, then a
   * reference without a name, then the first type that throws.
   */
  function AssemblyFailure(reader: MetadataReader): (f: Option<Failure>)
    requires WellFormed(reader)
    ensures reader.assemblyName.IsNil() ==> f == Some(ArgumentNull)
  {
    AssemblyReferencesValid(reader);
    TypeDefinitionsValid(reader);
    if GetString(reader, reader.assemblyName).None? then Some(ArgumentNull)
    else if ReferenceIds(reader, reader.assemblyReferences).Err? then Some(ArgumentNull)
    else if ScannedTypes(reader, reader.typeDefinitions).Err? then Some(ScannedTypes(reader, reader.typeDefinitions).error)
    else None
  }

  /**
   * One type the loop kept: its node, the DEFINES_METHOD targets its scan
   * logged, its definition, and the interfaces its node held before the scan.
   */
  datatype TypeScan = TypeScan(node: nat, methods: seq<nat>, def: TypeDefinition, prior: seq<nat>)

  function Nodes(scans: seq<TypeScan>): (ts: seq<nat>)
    ensures |ts| == |scans| && forall i :: 0 <= i < |scans| ==> ts[i] == scans[i].node
  {
    if |scans| == 0 then [] else Nodes(scans[..|scans| - 1]) + [scans[|scans| - 1].node]
  }

  /** The calls of one kept type on the database: the type node, its method edges, then the DEFINES_TYPE edge. */
  function ScanEvents(a: nat, s: TypeScan): seq<Event<NodeRef>>
  {
    [NodeCreated(TypeRef(s.node))] + MethodEdges(s.node, s.methods) + [RelationshipCreated(AssemblyRef(a), TypeRef(s.node), DefinesType)]
  }

  lemma ScanEventsAppend(e: seq<Event<NodeRef>>, a: nat, s: TypeScan)
    ensures e + [NodeCreated(TypeRef(s.node))] + MethodEdges(s.node, s.methods) + [RelationshipCreated(AssemblyRef(a), TypeRef(s.node), DefinesType)]
         == e + ScanEvents(a, s)
  {
  }

  function TypeEvents(a: nat, scans: seq<TypeScan>): seq<Event<NodeRef>>
  {
    if |scans| == 0 then [] else TypeEvents(a, scans[..|scans| - 1]) + ScanEvents(a, scans[|scans| - 1])
  }

  lemma TypeEventsSnoc(a: nat, scans: seq<TypeScan>, s: TypeScan)
    ensures TypeEvents(a, scans + [s]) == TypeEvents(a, scans) + ScanEvents(a, s)
    ensures Nodes(scans + [s]) == Nodes(scans) + [s.node]
  {
    assert (scans + [s])[..|scans|] == scans;
  }

  /**
   * Where the type loop stands from the maps `tk0`, `mk0` and the log `e0`,
   * once it has added the types `ids`: each kept type has its node interned
   * under its id, in order, its method edges and its DEFINES_TYPE edge.
   */
  ghost predicate TypesScanned(typeKeys: seq<string>, methodKeys: seq<string>, events: seq<Event<NodeRef>>, a: nat,
                               tk0: seq<string>, mk0: seq<string>, e0: seq<Event<NodeRef>>, scans: seq<TypeScan>, ids: seq<string>)
  {
    && Extends(tk0, typeKeys) && Extends(mk0, methodKeys)
    && RefersTo(typeKeys, Nodes(scans), ids)
    && events == e0 + TypeEvents(a, scans)
  }

  /** The assembly map during the type loop: only the scanned assembly's `DefinedTypes` grows, by `ts`. */
  ghost predicate DefinedTypesAdded(keys: seq<string>, nodes: seq<Node<string, NetAssembly>>, a: nat,
                                    k1: seq<string>, n1: seq<Node<string, NetAssembly>>, ts: seq<nat>)
  {
    && keys == k1 && a < |n1|
    && nodes == n1[a := Node(n1[a].id, n1[a].data.(definedTypes := n1[a].data.definedTypes + ts))]
  }

  lemma DefinedTypesAddedNone(keys: seq<string>, nodes: seq<Node<string, NetAssembly>>, a: nat)
    requires a < |nodes|
    ensures DefinedTypesAdded(keys, nodes, a, keys, nodes, Nodes([]))
  {
    assert nodes[a].data.(definedTypes := nodes[a].data.definedTypes + []) == nodes[a].data;
  }

  lemma DefinedTypesAddedStep(keys: seq<string>, nodes: seq<Node<string, NetAssembly>>, a: nat,
                              k1: seq<string>, n1: seq<Node<string, NetAssembly>>, ts: seq<nat>, t: nat)
    requires DefinedTypesAdded(keys, nodes, a, k1, n1, ts)
    ensures DefinedTypesAdded(keys, nodes[a := Node(nodes[a].id, nodes[a].data.(definedTypes := nodes[a].data.definedTypes + [t]))],
                              a, k1, n1, ts + [t])
  {
    assert n1[a].data.definedTypes + ts + [t] == n1[a].data.definedTypes + (ts + [t]);
  }

  /** A type kept at node `s.node` under `id`, with its DEFINES_TYPE edge logged, moves `TypesScanned` one type on. */
  lemma TypesScannedKeep(typeKeys: seq<string>, methodKeys: seq<string>, events: seq<Event<NodeRef>>,
                         typeKeys2: seq<string>, methodKeys2: seq<string>, a: nat,
                         tk0: seq<string>, mk0: seq<string>, e0: seq<Event<NodeRef>>, scans: seq<TypeScan>, ids: seq<string>,
                         s: TypeScan, id: string)
    requires TypesScanned(typeKeys, methodKeys, events, a, tk0, mk0, e0, scans, ids)
    requires Extends(typeKeys, typeKeys2) && Extends(methodKeys, methodKeys2)
    requires s.node < |typeKeys2| && typeKeys2[s.node] == id
    ensures TypesScanned(typeKeys2, methodKeys2, events + ScanEvents(a, s), a, tk0, mk0, e0, scans + [s], ids + [id])
  {
    ExtendsTransitive(tk0, typeKeys, typeKeys2);
    ExtendsTransitive(mk0, methodKeys, methodKeys2);
    TypeEventsSnoc(a, scans, s);
    RefersToSnoc(typeKeys, typeKeys2, Nodes(scans), ids, s.node);
  }

  /**
   * The node of a kept type holds what its scan wrote: `s.def` is one of
   * `ds` and included, its node is interned under its id, and the node
   * models it (`TypeModelled`).
   */
  ghost predicate ScanModelled(nodes: seq<Node<string, NetType>>, keys: seq<string>, reader: MetadataReader,
                               ds: seq<TypeDefinition>, s: TypeScan)
    requires WellFormed(reader)
  {
    && ValidTypeDefinition(reader, s.def) && s.def in ds && IncludeType(reader, s.def) == Ok(true)
    && s.node < |nodes| && s.node < |keys| && keys[s.node] == DefinitionId(reader, s.def)
    && TypeModelled(nodes[s.node].data, reader, s.def, keys, s.prior)
  }

  ghost predicate TypesModelled(nodes: seq<Node<string, NetType>>, keys: seq<string>, reader: MetadataReader,
                                ds: seq<TypeDefinition>, scans: seq<TypeScan>)
    requires WellFormed(reader)
  {
    forall i :: 0 <= i < |scans| ==> ScanModelled(nodes, keys, reader, ds, scans[i])
  }

  /** A kept type's node that no later write touched still models its type, over the grown keys. */
  lemma ScanModelledKept(n1: seq<Node<string, NetType>>, k1: seq<string>, n2: seq<Node<string, NetType>>, k2: seq<string>,
                         reader: MetadataReader, ds: seq<TypeDefinition>, s: TypeScan, qs: seq<nat>)
    requires WellFormed(reader) && ScanModelled(n1, k1, reader, ds, s)
    requires Extends(k1, k2) && GrowsExcept(n1, n2, NewType(), qs) && s.node !in qs
    ensures ScanModelled(n2, k2, reader, ds, s)
  {
    ExtendsKeeps(k1, k2, s.node);
    TypeModelledExtended(n1[s.node].data, reader, s.def, k1, k2, s.prior);
  }

  /** Writes only at nodes interned under ids none of the kept types has leave the kept types' nodes modelling them. */
  lemma TypesModelledApart(n1: seq<Node<string, NetType>>, k1: seq<string>, n2: seq<Node<string, NetType>>, k2: seq<string>,
                           reader: MetadataReader, ds: seq<TypeDefinition>, scans: seq<TypeScan>, ids: seq<string>,
                           qs: seq<nat>, others: seq<string>)
    requires WellFormed(reader) && TypesModelled(n1, k1, reader, ds, scans) && RefersTo(k1, Nodes(scans), ids)
    requires Extends(k1, k2) && GrowsExcept(n1, n2, NewType(), qs) && RefersTo(k2, qs, others)
    requires forall x :: x in ids ==> x !in others
    ensures TypesModelled(n2, k2, reader, ds, scans)
  {
    forall i | 0 <= i < |scans|
      ensures ScanModelled(n2, k2, reader, ds, scans[i])
    {
      var p := scans[i].node;
      assert Nodes(scans)[i] == p && k1[p] == ids[i];
      ExtendsKeeps(k1, k2, p);
      assert ids[i] in ids;
      forall b | 0 <= b < |qs|
        ensures qs[b] != p
      {
        assert k2[qs[b]] == others[b] && others[b] in others;
      }
      ScanModelledKept(n1, k1, n2, k2, reader, ds, scans[i], qs);
    }
  }

  /**
   * One more kept type, written at its own node: when its id is none of
   * the earlier ones, their nodes are other nodes and still model them.
   */
  lemma TypesModelledSnoc(n1: seq<Node<string, NetType>>, k1: seq<string>, n2: seq<Node<string, NetType>>, k2: seq<string>,
                          reader: MetadataReader, ds: seq<TypeDefinition>, scans: seq<TypeScan>, ids: seq<string>, s: TypeScan)
    requires WellFormed(reader) && TypesModelled(n1, k1, reader, ds, scans) && RefersTo(k1, Nodes(scans), ids)
    requires Extends(k1, k2) && GrowsBut(n1, n2, NewType(), s.node) && ScanModelled(n2, k2, reader, ds, s)
    requires Distinct(ids + [k2[s.node]])
    ensures TypesModelled(n2, k2, reader, ds, scans + [s])
  {
    GrowsExceptNone(n1, NewType());
    GrowsExceptSnoc(n1, n1, n2, NewType(), [], s.node);
    assert [] + [s.node] == [s.node];
    DistinctSplit(ids, [k2[s.node]]);
    TypesModelledApart(n1, k1, n2, k2, reader, ds, scans, ids, [s.node], [k2[s.node]]);
    assert forall i :: 0 <= i < |scans| ==> (scans + [s])[i] == scans[i];
    assert (scans + [s])[|scans|] == s;
  }

  /**
   * The type nodes during the type loop from `tn0`: only the kept types'
   * nodes were written, and, when no id was kept twice, each models its type.
   */
  ghost predicate TypeNodes(tn0: seq<Node<string, NetType>>, nodes: seq<Node<string, NetType>>, keys: seq<string>,
                            reader: MetadataReader, ds: seq<TypeDefinition>, scans: seq<TypeScan>, ids: seq<string>)
    requires WellFormed(reader)
  {
    && GrowsExcept(tn0, nodes, NewType(), Nodes(scans))
    && (Distinct(ids) ==> TypesModelled(nodes, keys, reader, ds, scans))
  }

  /** A type the loop keeps: its write joins the loop's, and its node models it when its id is new. */
  lemma TypeKeptModelled(tn0: seq<Node<string, NetType>>, n1: seq<Node<string, NetType>>, k1: seq<string>,
                         n2: seq<Node<string, NetType>>, k2: seq<string>, reader: MetadataReader, ds: seq<TypeDefinition>,
                         scans: seq<TypeScan>, ids: seq<string>, s: TypeScan)
    requires WellFormed(reader) && ValidTypeDefinition(reader, s.def) && s.def in ds
    requires TypeNodes(tn0, n1, k1, reader, ds, scans, ids) && RefersTo(k1, Nodes(scans), ids)
    requires Extends(k1, k2) && GrowsBut(n1, n2, NewType(), s.node) && s.node < |n2| && s.node < |k2|
    requires IncludeType(reader, s.def) == Ok(true) && k2[s.node] == DefinitionId(reader, s.def)
    requires TypeModelled(n2[s.node].data, reader, s.def, k2, s.prior)
    ensures TypeNodes(tn0, n2, k2, reader, ds, scans + [s], ids + [DefinitionId(reader, s.def)])
  {
    TypeEventsSnoc(0, scans, s);
    GrowsExceptSnoc(tn0, n1, n2, NewType(), Nodes(scans), s.node);
    if Distinct(ids + [DefinitionId(reader, s.def)]) {
      DistinctSplit(ids, [DefinitionId(reader, s.def)]);
      TypesModelledSnoc(n1, k1, n2, k2, reader, ds, scans, ids, s);
    }
  }

  /** `model.DefinedTypes.Add(typeModel)` on the assembly node at `a`. */
  method AddDefinedType(factory: NodeFactory, a: nat, t: nat)
    requires factory.Valid() && a < |factory.assemblyMap.nodes|
    modifies factory.assemblyMap
    ensures factory.Valid() && factory.assemblyMap.keys == old(factory.assemblyMap.keys)
    ensures factory.assemblyMap.nodes == old(factory.assemblyMap.nodes)[a := Node(old(factory.assemblyMap.nodes[a].id),
      old(factory.assemblyMap.nodes[a].data).(definedTypes := old(factory.assemblyMap.nodes[a].data.definedTypes) + [t]))]
  {
    var model := factory.assemblyMap.nodes[a].data;
    factory.assemblyMap.Update(a, model.(definedTypes := model.definedTypes + [t]));
  }

  /**
   * `ScanType` as the type loop sees it, on the definition `d` of `ds`
   * after the kept types `scans`: the type's failure, or whether it was
   * kept, what it logged, and how its write joins the loop's `TypeNodes`.
   */
  method ScanOneType(reader: MetadataReader, factory: NodeFactory, db: Transaction<NodeRef>, d: TypeDefinition,
                     ghost ds: seq<TypeDefinition>, ghost tn0: seq<Node<string, NetType>>, ghost scans: seq<TypeScan>,
                     ghost ids: seq<string>)
    returns (r: Result<Option<nat>>, ghost s: TypeScan)
    requires factory.Valid() && WellFormed(reader) && ValidTypeDefinition(reader, d) && d in ds
    requires TypeNodes(tn0, factory.typeMap.nodes, factory.typeMap.keys, reader, ds, scans, ids)
    requires RefersTo(factory.typeMap.keys, Nodes(scans), ids)
    modifies db, factory.typeMap, factory.methodMap
    ensures factory.Valid()
    ensures Extends(old(factory.typeMap.keys), factory.typeMap.keys) && Extends(old(factory.methodMap.keys), factory.methodMap.keys)
    ensures r.Err? <==> TypeFailure(reader, d).Some?
    ensures r.Err? ==> TypeFailure(reader, d) == Some(r.error)
    ensures r == Ok(None) <==> IncludeType(reader, d) == Ok(false)
    ensures r == Ok(None) ==> db.events == old(db.events)
    ensures r == Ok(None) ==> factory.typeMap.keys == old(factory.typeMap.keys) && factory.typeMap.nodes == old(factory.typeMap.nodes)
    ensures r.Ok? && r.value.Some? ==>
      && IncludeType(reader, d) == Ok(true) && s.node == r.value.value && s.def == d
      && s.node < |factory.typeMap.keys| && factory.typeMap.keys[s.node] == DefinitionId(reader, d)
      && db.events == old(db.events) + [NodeCreated(TypeRef(s.node))] + MethodEdges(s.node, s.methods)
    ensures r.Ok? && r.value.Some? ==>
      TypeNodes(tn0, factory.typeMap.nodes, factory.typeMap.keys, reader, ds, scans + [s], ids + [DefinitionId(reader, d)])
  {
    ghost var t, ps;
    ghost var n0, k0 := factory.typeMap.nodes, factory.typeMap.keys;
    r, t, ps := ScanType(reader, factory, db, d);
    s := TypeScan(t, ps, d, Before(n0, t, NewType()).implements);
    if IncludeType(reader, d).Err? || IncludeType(reader, d) == Ok(false) {
      ExtendsReflexive(factory.typeMap.keys);
      ExtendsReflexive(factory.methodMap.keys);
    } else {
      TypeKeptModelled(tn0, n0, k0, factory.typeMap.nodes, factory.typeMap.keys, reader, ds, scans, ids, s);
    }
  }

  /**
   * The type loop after `j` types: the assembly ids are unchanged, and either
   * the `j`-th type threw, failing the prefix with it, or the prefix added
   * the types `ids` and `TypesScanned` and `DefinedTypesAdded` hold.
   */
  ghost predicate TypeLoop(assemblyKeys: seq<string>, assemblyNodes: seq<Node<string, NetAssembly>>,
                           typeKeys: seq<string>, methodKeys: seq<string>, events: seq<Event<NodeRef>>,
                           reader: MetadataReader, ds: seq<TypeDefinition>, a: nat,
                           ak1: seq<string>, an1: seq<Node<string, NetAssembly>>, tk0: seq<string>,
                           mk0: seq<string>, e0: seq<Event<NodeRef>>, r: Result<()>, scans: seq<TypeScan>, ids: seq<string>, j: nat)
    requires WellFormed(reader) && forall i :: 0 <= i < |ds| ==> ValidTypeDefinition(reader, ds[i])
  {
    && j <= |ds| && assemblyKeys == ak1
    && Extends(tk0, typeKeys) && Extends(mk0, methodKeys)
    && (r.Err? ==> 0 < j && ScannedTypes(reader, ds[..j]) == Err(r.error))
    && (r.Ok? ==> ScannedTypes(reader, ds[..j]) == Ok(ids))
    && (r.Ok? ==> DefinedTypesAdded(assemblyKeys, assemblyNodes, a, ak1, an1, Nodes(scans)))
    && (r.Ok? ==> TypesScanned(typeKeys, methodKeys, events, a, tk0, mk0, e0, scans, ids))
  }

  /** A type whose scan throws ends the type loop with its failure. */
  lemma TypeLoopFailed(assemblyKeys: seq<string>, assemblyNodes: seq<Node<string, NetAssembly>>,
                       tk1: seq<string>, mk1: seq<string>, e1: seq<Event<NodeRef>>,
                       tk2: seq<string>, mk2: seq<string>, e2: seq<Event<NodeRef>>, an2: seq<Node<string, NetAssembly>>,
                       reader: MetadataReader, ds: seq<TypeDefinition>, a: nat,
                       ak1: seq<string>, an1: seq<Node<string, NetAssembly>>, tk0: seq<string>,
                       mk0: seq<string>, e0: seq<Event<NodeRef>>, scans: seq<TypeScan>, ids: seq<string>, j: nat, f: Failure)
    requires WellFormed(reader) && forall i :: 0 <= i < |ds| ==> ValidTypeDefinition(reader, ds[i])
    requires j < |ds| && TypeLoop(assemblyKeys, assemblyNodes, tk1, mk1, e1, reader, ds, a, ak1, an1, tk0, mk0, e0, Ok(()), scans, ids, j)
    requires Extends(tk1, tk2) && Extends(mk1, mk2) && TypeFailure(reader, ds[j]) == Some(f)
    ensures TypeLoop(assemblyKeys, an2, tk2, mk2, e2, reader, ds, a, ak1, an1, tk0, mk0, e0, Err(f), scans, ids, j + 1)
  {
    ScannedTypesStep(reader, ds, j);
    ExtendsTransitive(tk0, tk1, tk2);
    ExtendsTransitive(mk0, mk1, mk2);
  }

  /** A type that is not included moves the type loop on, changing nothing. */
  lemma TypeLoopSkipped(assemblyKeys: seq<string>, assemblyNodes: seq<Node<string, NetAssembly>>,
                        typeKeys: seq<string>, methodKeys: seq<string>, events: seq<Event<NodeRef>>,
                        reader: MetadataReader, ds: seq<TypeDefinition>, a: nat,
                        ak1: seq<string>, an1: seq<Node<string, NetAssembly>>, tk0: seq<string>,
                        mk0: seq<string>, e0: seq<Event<NodeRef>>, scans: seq<TypeScan>, ids: seq<string>, j: nat)
    requires WellFormed(reader) && forall i :: 0 <= i < |ds| ==> ValidTypeDefinition(reader, ds[i])
    requires j < |ds| && TypeLoop(assemblyKeys, assemblyNodes, typeKeys, methodKeys, events, reader, ds, a, ak1, an1, tk0, mk0, e0, Ok(()), scans, ids, j)
    requires TypeFailure(reader, ds[j]).None? && IncludeType(reader, ds[j]) == Ok(false)
    ensures TypeLoop(assemblyKeys, assemblyNodes, typeKeys, methodKeys, events, reader, ds, a, ak1, an1, tk0, mk0, e0, Ok(()), scans, ids, j + 1)
  {
    ScannedTypesStep(reader, ds, j);
  }

  /** A kept type, added to the assembly with its edges logged, moves the type loop on. */
  lemma TypeLoopKept(assemblyKeys: seq<string>, assemblyNodes: seq<Node<string, NetAssembly>>,
                     typeKeys: seq<string>, methodKeys: seq<string>, events: seq<Event<NodeRef>>,
                     reader: MetadataReader, ds: seq<TypeDefinition>, a: nat,
                     ak1: seq<string>, an1: seq<Node<string, NetAssembly>>, tk0: seq<string>,
                     mk0: seq<string>, e0: seq<Event<NodeRef>>, scans: seq<TypeScan>, ids: seq<string>, j: nat)
    requires WellFormed(reader) && forall i :: 0 <= i < |ds| ==> ValidTypeDefinition(reader, ds[i])
    requires j < |ds| && ScannedTypes(reader, ds[..j]) == Ok(ids) && assemblyKeys == ak1
    requires TypeFailure(reader, ds[j]).None? && IncludeType(reader, ds[j]) == Ok(true)
    requires DefinedTypesAdded(assemblyKeys, assemblyNodes, a, ak1, an1, Nodes(scans))
    requires TypesScanned(typeKeys, methodKeys, events, a, tk0, mk0, e0, scans, ids + [DefinitionId(reader, ds[j])])
    ensures TypeLoop(assemblyKeys, assemblyNodes, typeKeys, methodKeys, events, reader, ds, a, ak1, an1, tk0, mk0, e0,
                     Ok(()), scans, ids + [DefinitionId(reader, ds[j])], j + 1)
  {
    ScannedTypesStep(reader, ds, j);
  }

  /** Lines 47 and 48 for a kept type: add it to the assembly and log its DEFINES_TYPE edge. */
  method KeepType(factory: NodeFactory, db: Transaction<NodeRef>, a: nat, t: nat,
                  ghost ak1: seq<string>, ghost an1: seq<Node<string, NetAssembly>>, ghost tk0: seq<string>,
                  ghost mk0: seq<string>, ghost e0: seq<Event<NodeRef>>, ghost scans: seq<TypeScan>, ghost ids: seq<string>,
                  ghost tk1: seq<string>, ghost mk1: seq<string>, ghost e1: seq<Event<NodeRef>>, ghost s: TypeScan, ghost id: string,
                  ghost reader: MetadataReader, ghost ds: seq<TypeDefinition>, ghost j: nat)
    requires WellFormed(reader) && forall i :: 0 <= i < |ds| ==> ValidTypeDefinition(reader, ds[i])
    requires TypeLoop(factory.assemblyMap.keys, factory.assemblyMap.nodes, tk1, mk1, e1, reader, ds, a, ak1, an1, tk0, mk0, e0,
                      Ok(()), scans, ids, j)
    requires j < |ds| && TypeFailure(reader, ds[j]).None? && IncludeType(reader, ds[j]) == Ok(true) && id == DefinitionId(reader, ds[j])
    requires factory.Valid() && s.node == t
    requires Extends(tk1, factory.typeMap.keys) && Extends(mk1, factory.methodMap.keys)
    requires t < |factory.typeMap.keys| && factory.typeMap.keys[t] == id
    requires db.events == e1 + [NodeCreated(TypeRef(t))] + MethodEdges(t, s.methods)
    modifies db, factory.assemblyMap
    ensures factory.Valid() && factory.typeMap.keys == old(factory.typeMap.keys) && factory.methodMap.keys == old(factory.methodMap.keys)
    ensures factory.typeMap.nodes == old(factory.typeMap.nodes)
    ensures TypeLoop(factory.assemblyMap.keys, factory.assemblyMap.nodes, factory.typeMap.keys, factory.methodMap.keys, db.events,
                     reader, ds, a, ak1, an1, tk0, mk0, e0, Ok(()), scans + [s], ids + [id], j + 1)
  {
    AddDefinedType(factory, a, t);
    db.CreateRelationship(AssemblyRef(a), TypeRef(t), DefinesType);
    ScanEventsAppend(e1, a, s);
    TypesScannedKeep(tk1, mk1, e1, factory.typeMap.keys, factory.methodMap.keys, a, tk0, mk0, e0, scans, ids, s, id);
    DefinedTypesAddedStep(ak1, old(factory.assemblyMap.nodes), a, ak1, an1, Nodes(scans), t);
    TypeEventsSnoc(a, scans, s);
    TypeLoopKept(factory.assemblyMap.keys, factory.assemblyMap.nodes, factory.typeMap.keys, factory.methodMap.keys, db.events,
                 reader, ds, a, ak1, an1, tk0, mk0, e0, scans + [s], ids, j);
  }

  /** One turn of the type loop: scan the type and, when it is kept, add it to the assembly and log its edge. */
  method ScanNextType(reader: MetadataReader, factory: NodeFactory, db: Transaction<NodeRef>, ds: seq<TypeDefinition>, a: nat,
                      ghost ak1: seq<string>, ghost an1: seq<Node<string, NetAssembly>>, ghost tk0: seq<string>,
                      ghost mk0: seq<string>, ghost e0: seq<Event<NodeRef>>, ghost tn0: seq<Node<string, NetType>>,
                      ghost scans: seq<TypeScan>, ghost ids: seq<string>, j: nat)
    returns (r: Result<()>, ghost scans': seq<TypeScan>, ghost ids': seq<string>)
    requires WellFormed(reader) && forall i :: 0 <= i < |ds| ==> ValidTypeDefinition(reader, ds[i])
    requires factory.Valid() && j < |ds|
    requires TypeLoop(factory.assemblyMap.keys, factory.assemblyMap.nodes, factory.typeMap.keys, factory.methodMap.keys, db.events,
                      reader, ds, a, ak1, an1, tk0, mk0, e0, Ok(()), scans, ids, j)
    requires TypeNodes(tn0, factory.typeMap.nodes, factory.typeMap.keys, reader, ds, scans, ids)
    modifies db, factory.assemblyMap, factory.typeMap, factory.methodMap
    ensures factory.Valid()
    ensures TypeLoop(factory.assemblyMap.keys, factory.assemblyMap.nodes, factory.typeMap.keys, factory.methodMap.keys, db.events,
                     reader, ds, a, ak1, an1, tk0, mk0, e0, r, scans', ids', j + 1)
    ensures r.Ok? ==> TypeNodes(tn0, factory.typeMap.nodes, factory.typeMap.keys, reader, ds, scans', ids')
  {
    ghost var tk1, mk1 := factory.typeMap.keys, factory.methodMap.keys;
    ghost var s;
    var typeModel;
    scans', ids' := scans, ids;
    assert ds[j] in ds;
    typeModel, s := ScanOneType(reader, factory, db, ds[j], ds, tn0, scans, ids);
    ghost var ak, an, tk2, mk2, e2 := factory.assemblyMap.keys, factory.assemblyMap.nodes, factory.typeMap.keys,
                                      factory.methodMap.keys, db.events;
    if typeModel.Err? {
      TypeLoopFailed(ak, an, tk1, mk1, old(db.events), tk2, mk2, e2, an,
                     reader, ds, a, ak1, an1, tk0, mk0, e0, scans, ids, j, typeModel.error);
      return Err(typeModel.error), scans', ids';
    }
    r := Ok(());
    if typeModel.value.None? {
      TypeLoopSkipped(ak, an, tk2, mk2, e2, reader, ds, a, ak1, an1, tk0, mk0, e0, scans, ids, j);
      return;
    }
    KeepType(factory, db, a, typeModel.value.value, ak1, an1, tk0, mk0, e0, scans, ids, tk1, mk1, old(db.events), s,
             DefinitionId(reader, ds[j]), reader, ds, j);
    scans', ids' := scans + [s], ids + [DefinitionId(reader, ds[j])];
  }

  /**
   * Lines 37 to 49 of `Scan`: every type definition is scanned in order;
   * each one kept is added to the assembly's `DefinedTypes` and gets a
   * DEFINES_TYPE edge, and the first exception ends the scan.
   */
  method ScanTypes(reader: MetadataReader, factory: NodeFactory, db: Transaction<NodeRef>, a: nat,
                   ghost ak1: seq<string>, ghost an1: seq<Node<string, NetAssembly>>, ghost tk0: seq<string>,
                   ghost mk0: seq<string>, ghost e0: seq<Event<NodeRef>>)
    returns (r: Result<()>, ghost scans: seq<TypeScan>)
    requires WellFormed(reader) && factory.Valid() && a < |factory.assemblyMap.nodes|
    requires factory.assemblyMap.keys == ak1 && factory.assemblyMap.nodes == an1
    requires factory.typeMap.keys == tk0 && factory.methodMap.keys == mk0 && db.events == e0
    modifies db, factory.assemblyMap, factory.typeMap, factory.methodMap
    ensures factory.Valid()
    ensures Extends(tk0, factory.typeMap.keys) && Extends(mk0, factory.methodMap.keys)
    ensures factory.assemblyMap.keys == ak1
    ensures r.Ok? <==> ScannedTypes(reader, reader.typeDefinitions).Ok?
    ensures r.Err? ==> ScannedTypes(reader, reader.typeDefinitions) == Err(r.error)
    ensures r.Ok? ==> DefinedTypesAdded(factory.assemblyMap.keys, factory.assemblyMap.nodes, a, ak1, an1, Nodes(scans))
    ensures r.Ok? ==> TypesScanned(factory.typeMap.keys, factory.methodMap.keys, db.events, a,
                                   tk0, mk0, e0, scans, ScannedTypes(reader, reader.typeDefinitions).value)
    ensures r.Ok? ==> GrowsExcept(old(factory.typeMap.nodes), factory.typeMap.nodes, NewType(), Nodes(scans))
    ensures r.Ok? && Distinct(ScannedTypes(reader, reader.typeDefinitions).value) ==>
      TypesModelled(factory.typeMap.nodes, factory.typeMap.keys, reader, reader.typeDefinitions, scans)
  {
    TypeDefinitionsValid(reader);
    var ds := reader.typeDefinitions;
    ghost var tn0 := factory.typeMap.nodes;
    GrowsExceptNone(tn0, NewType());
    ExtendsReflexive(tk0);
    ExtendsReflexive(mk0);
    scans := [];
    DefinedTypesAddedNone(ak1, an1, a);
    ghost var ids := [];
    r := Ok(());
    var j := 0;
    assert ds[..0] == [];
    while j < |ds| && r.Ok?
      invariant factory.Valid()
      invariant TypeLoop(factory.assemblyMap.keys, factory.assemblyMap.nodes, factory.typeMap.keys, factory.methodMap.keys, db.events,
                         reader, ds, a, ak1, an1, tk0, mk0, e0, r, scans, ids, j)
      invariant r.Ok? ==> TypeNodes(tn0, factory.typeMap.nodes, factory.typeMap.keys, reader, ds, scans, ids)
      decreases |ds| - j
    {
      r, scans, ids := ScanNextType(reader, factory, db, ds, a, ak1, an1, tk0, mk0, e0, tn0, scans, ids, j);
      j := j + 1;
    }
    if r.Err? {
      ScannedTypesPrefixError(reader, ds, j);
    } else {
      assert ds[..|ds|] == ds;
    }
  }

  /**
   * `ScanMethod` never calls `CreateNode`: the type loop's log creates type
   * nodes only, while every DEFINES_METHOD edge it logs points at a method.
   */
  lemma {:induction false} TypeEventsCreateNoMethodNode(a: nat, scans: seq<TypeScan>)
    ensures forall e :: e in TypeEvents(a, scans) && e.NodeCreated? ==> e.node.TypeRef?
    ensures forall e :: e in TypeEvents(a, scans) && e.RelationshipCreated? && e.kind == DefinesMethod ==> e.to.MethodRef?
    decreases |scans|
  {
    if |scans| > 0 {
      var init, last := scans[..|scans| - 1], scans[|scans| - 1];
      TypeEventsCreateNoMethodNode(a, init);
      assert forall e :: e in MethodEdges(last.node, last.methods) ==> e.RelationshipCreated? && e.to.MethodRef?;
      assert TypeEvents(a, scans) == TypeEvents(a, init) + ScanEvents(a, last);
    }
  }

  /** The references loop after `j` references: each has a name, and its node is interned under it. */
  ghost predicate ReferencesInterned(keys: seq<string>, refs: seq<nat>, reader: MetadataReader, rs: seq<AssemblyReference>, j: nat)
    requires forall i :: 0 <= i < |rs| ==> ValidString(reader, rs[i].name)
  {
    && j <= |rs| && |refs| == j
    && forall i :: 0 <= i < j ==> !rs[i].name.IsNil() && refs[i] < |keys| && GetString(reader, rs[i].name) == Some(keys[refs[i]])
  }

  /** One more reference interned at `p`, by a call that can only append, moves the loop on. */
  lemma ReferencesInternedStep(k0: seq<string>, n0: seq<Node<string, NetAssembly>>, k1: seq<string>, n1: seq<Node<string, NetAssembly>>,
                               i1: map<string, nat>, k2: seq<string>, n2: seq<Node<string, NetAssembly>>, refs: seq<nat>,
                               reader: MetadataReader, rs: seq<AssemblyReference>, j: nat, p: Result<nat>)
    requires forall i :: 0 <= i < |rs| ==> ValidString(reader, rs[i].name)
    requires Extends(k0, k1) && Grows(n0, n1, NewAssembly()) && ReferencesInterned(k1, refs, reader, rs, j) && j < |rs|
    requires Interned(k1, n1, i1, k2, n2, GetString(reader, rs[j].name), NewAssembly(), p) && p.Ok?
    requires p.value < |k2| && k2[p.value] == GetString(reader, rs[j].name).value
    ensures Extends(k0, k2) && Grows(n0, n2, NewAssembly()) && ReferencesInterned(k2, refs + [p.value], reader, rs, j + 1)
  {
    InternedGrows(k1, n1, i1, k2, n2, GetString(reader, rs[j].name), NewAssembly(), p);
    ExtendsTransitive(k0, k1, k2);
    GrowsTransitive(n0, n1, n2, NewAssembly());
    forall i | 0 <= i < j
      ensures refs[i] < |k2| && k2[refs[i]] == k1[refs[i]]
    {
      ExtendsKeeps(k1, k2, refs[i]);
    }
  }

  /** A loop that went through every reference has interned exactly their ids. */
  lemma ReferencesInternedAll(keys: seq<string>, refs: seq<nat>, reader: MetadataReader, rs: seq<AssemblyReference>)
    requires forall i :: 0 <= i < |rs| ==> ValidString(reader, rs[i].name)
    requires ReferencesInterned(keys, refs, reader, rs, |rs|)
    ensures ReferenceIds(reader, rs).Ok? && RefersTo(keys, refs, ReferenceIds(reader, rs).value)
  {
    var ids := ReferenceIds(reader, rs).value;
    assert forall i :: 0 <= i < |rs| ==> Some(ids[i]) == Some(keys[refs[i]]);
  }

  /**
   * Lines 32 to 35: `CreateAssemblyModel` on every reference in order. The
   * first reference without a name throws, the ones before it staying
   * interned; otherwise the list refers to the reference names.
   */
  method ScanReferences(reader: MetadataReader, factory: NodeFactory, rs: seq<AssemblyReference>) returns (r: Result<seq<nat>>)
    requires factory.Valid() && forall i :: 0 <= i < |rs| ==> ValidString(reader, rs[i].name)
    modifies factory.assemblyMap
    ensures factory.Valid()
    ensures Extends(old(factory.assemblyMap.keys), factory.assemblyMap.keys)
    ensures Grows(old(factory.assemblyMap.nodes), factory.assemblyMap.nodes, NewAssembly())
    ensures r.Ok? <==> ReferenceIds(reader, rs).Ok?
    ensures r.Err? ==> r.error == ArgumentNull
    ensures r.Ok? ==> RefersTo(factory.assemblyMap.keys, r.value, ReferenceIds(reader, rs).value)
  {
    ghost var k0, n0 := factory.assemblyMap.keys, factory.assemblyMap.nodes;
    ExtendsReflexive(k0);
    GrowsReflexive(n0, NewAssembly());
    var refs := [];
    for j := 0 to |rs|
      invariant factory.Valid()
      invariant Extends(k0, factory.assemblyMap.keys) && Grows(n0, factory.assemblyMap.nodes, NewAssembly())
      invariant ReferencesInterned(factory.assemblyMap.keys, refs, reader, rs, j)
    {
      ghost var k1, n1, i1 := factory.assemblyMap.keys, factory.assemblyMap.nodes, factory.assemblyMap.index;
      var reference := factory.CreateAssemblyModel(GetString(reader, rs[j].name));
      if reference.Err? {
        return Err(reference.error);
      }
      ReferencesInternedStep(k0, n0, k1, n1, i1, factory.assemblyMap.keys, factory.assemblyMap.nodes, refs, reader, rs, j, reference);
      refs := refs + [reference.value];
    }
    ReferencesInternedAll(factory.assemblyMap.keys, refs, reader, rs);
    r := Ok(refs);
  }

  /**
   * Lines 25 to 30: the assembly's name, its node interned under it with
   * the name set, and the node created in the database. A nameless
   * assembly makes the dictionary lookup throw before anything changes.
   */
  method CreateAssembly(reader: MetadataReader, factory: NodeFactory, db: Transaction<NodeRef>) returns (r: Result<nat>)
    requires ValidString(reader, reader.assemblyName) && factory.Valid()
    modifies db, factory.assemblyMap
    ensures factory.Valid() && unchanged(factory.typeMap) && unchanged(factory.methodMap)
    ensures r.Err? <==> reader.assemblyName.IsNil()
    ensures r.Err? ==> r.error == ArgumentNull && unchanged(db)
    ensures r.Err? ==> factory.assemblyMap.keys == old(factory.assemblyMap.keys) && factory.assemblyMap.nodes == old(factory.assemblyMap.nodes)
    ensures r.Ok? ==>
      && r.value < |factory.assemblyMap.keys| && Some(factory.assemblyMap.keys[r.value]) == GetString(reader, reader.assemblyName)
      && Extends(old(factory.assemblyMap.keys), factory.assemblyMap.keys)
      && GrowsBut(old(factory.assemblyMap.nodes), factory.assemblyMap.nodes, NewAssembly(), r.value)
      && factory.assemblyMap.nodes[r.value].data == Before(old(factory.assemblyMap.nodes), r.value, NewAssembly()).(name := GetString(reader, reader.assemblyName))
      && db.events == old(db.events) + [NodeCreated(AssemblyRef(r.value))]
  {
    ghost var k0, n0, i0 := factory.assemblyMap.keys, factory.assemblyMap.nodes, factory.assemblyMap.index;
    var name := GetString(reader, reader.assemblyName);
    r := factory.CreateAssemblyModel(name);
    if r.Err? {
      return;
    }
    InternedGrows(k0, n0, i0, factory.assemblyMap.keys, factory.assemblyMap.nodes, name, NewAssembly(), r);
    ghost var n1 := factory.assemblyMap.nodes;
    var model := factory.assemblyMap.nodes[r.value].data;
    factory.assemblyMap.Update(r.value, model.(name := name));
    GrowsThenWrite(n0, n1, NewAssembly(), r.value, factory.assemblyMap.nodes[r.value]);
    db.CreateNode(AssemblyRef(r.value));
  }

  /** Line 32: `model.References = ...`, once the list is built. */
  method SetReferences(factory: NodeFactory, a: nat, refs: seq<nat>)
    requires factory.Valid() && a < |factory.assemblyMap.nodes|
    modifies factory.assemblyMap
    ensures factory.Valid() && factory.assemblyMap.keys == old(factory.assemblyMap.keys)
    ensures factory.assemblyMap.nodes == old(factory.assemblyMap.nodes)[a := Node(old(factory.assemblyMap.nodes[a].id),
      old(factory.assemblyMap.nodes[a].data).(references := refs))]
  {
    var model := factory.assemblyMap.nodes[a].data;
    factory.assemblyMap.Update(a, model.(references := refs));
  }

  /** The assembly node after lines 32 to 49: its references set, its kept types appended, every other node grown. */
  lemma AssemblyNodeWritten(n1: seq<Node<string, NetAssembly>>, n2: seq<Node<string, NetAssembly>>,
                            n3: seq<Node<string, NetAssembly>>, n4: seq<Node<string, NetAssembly>>, keys: seq<string>,
                            a: nat, refs: seq<nat>, ts: seq<nat>)
    requires a < |n1| && Grows(n1, n2, NewAssembly())
    requires n3 == n2[a := Node(n2[a].id, n2[a].data.(references := refs))]
    requires DefinedTypesAdded(keys, n4, a, keys, n3, ts)
    ensures a < |n4| && GrowsBut(n1, n4, NewAssembly(), a)
    ensures n4[a].data.name == n1[a].data.name && n4[a].data.references == refs
    ensures n4[a].data.definedTypes == n1[a].data.definedTypes + ts
  {
    assert n2[a] == n1[a];
  }

  /**
   * Lines 32 to 49, on the assembly node at `a`: the references, then the
   * types. It throws on the first reference without a name, and then on
   * the first type that throws.
   */
  method ScanContents(reader: MetadataReader, factory: NodeFactory, db: Transaction<NodeRef>, a: nat,
                      ghost k1: seq<string>, ghost n1: seq<Node<string, NetAssembly>>, ghost tk0: seq<string>,
                      ghost mk0: seq<string>, ghost e1: seq<Event<NodeRef>>)
    returns (r: Result<()>, ghost scans: seq<TypeScan>)
    requires WellFormed(reader) && factory.Valid() && a < |factory.assemblyMap.nodes|
    requires factory.assemblyMap.keys == k1 && factory.assemblyMap.nodes == n1
    requires factory.typeMap.keys == tk0 && factory.methodMap.keys == mk0 && db.events == e1
    modifies db, factory.assemblyMap, factory.typeMap, factory.methodMap
    ensures factory.Valid()
    ensures r.Ok? <==> ReferenceIds(reader, reader.assemblyReferences).Ok? && ScannedTypes(reader, reader.typeDefinitions).Ok?
    ensures r.Err? && ReferenceIds(reader, reader.assemblyReferences).Err? ==> r.error == ArgumentNull
    ensures r.Err? && ReferenceIds(reader, reader.assemblyReferences).Ok? ==> ScannedTypes(reader, reader.typeDefinitions) == Err(r.error)
    ensures r.Ok? ==>
      && Extends(k1, factory.assemblyMap.keys) && a < |factory.assemblyMap.nodes|
      && GrowsBut(n1, factory.assemblyMap.nodes, NewAssembly(), a)
      && factory.assemblyMap.nodes[a].data.name == n1[a].data.name
      && RefersTo(factory.assemblyMap.keys, factory.assemblyMap.nodes[a].data.references,
                  ReferenceIds(reader, reader.assemblyReferences).value)
      && factory.assemblyMap.nodes[a].data.definedTypes == n1[a].data.definedTypes + Nodes(scans)
    ensures r.Ok? ==>
      && Extends(tk0, factory.typeMap.keys) && Extends(mk0, factory.methodMap.keys)
      && RefersTo(factory.typeMap.keys, Nodes(scans), ScannedTypes(reader, reader.typeDefinitions).value)
      && db.events == e1 + TypeEvents(a, scans)
    ensures r.Ok? ==> GrowsExcept(old(factory.typeMap.nodes), factory.typeMap.nodes, NewType(), Nodes(scans))
    ensures r.Ok? && Distinct(ScannedTypes(reader, reader.typeDefinitions).value) ==>
      TypesModelled(factory.typeMap.nodes, factory.typeMap.keys, reader, reader.typeDefinitions, scans)
  {
    AssemblyReferencesValid(reader);
    scans := [];
    var references := ScanReferences(reader, factory, reader.assemblyReferences);
    if references.Err? {
      return Err(references.error), scans;
    }
    var refs := references.value;
    ghost var k2, n2 := factory.assemblyMap.keys, factory.assemblyMap.nodes;
    SetReferences(factory, a, refs);
    ghost var n3 := factory.assemblyMap.nodes;
    r, scans := ScanTypes(reader, factory, db, a, k2, n3, tk0, mk0, e1);
    if r.Ok? {
      AssemblyNodeWritten(n1, n2, n3, factory.assemblyMap.nodes, k2, a, refs, Nodes(scans));
    }
  }

  /**
   * `Scan`: the assembly node, its references and its types, logged in
   * order. It throws exactly when `AssemblyFailure` says so; otherwise the
   * node is interned under the assembly's name and holds that name, the
   * reference list and the kept types, and the log gains the assembly node
   * followed by each kept type's calls. Only the kept types' nodes are
   * written among the type nodes, and, when no id is kept twice, each of
   * them models its definition: name, namespace, class, modifiers, base
   * type and interfaces (`TypesModelled`).
   */
  method Scan(reader: MetadataReader, factory: NodeFactory, db: Transaction<NodeRef>)
    returns (r: Result<nat>, ghost scans: seq<TypeScan>)
    requires WellFormed(reader) && factory.Valid()
    modifies db, factory.assemblyMap, factory.typeMap, factory.methodMap
    ensures factory.Valid()
    ensures r.Ok? <==> AssemblyFailure(reader).None?
    ensures r.Err? ==> AssemblyFailure(reader) == Some(r.error)
    ensures r.Ok? ==>
      && r.value < |factory.assemblyMap.keys| && Some(factory.assemblyMap.keys[r.value]) == GetString(reader, reader.assemblyName)
      && Extends(old(factory.assemblyMap.keys), factory.assemblyMap.keys)
      && GrowsBut(old(factory.assemblyMap.nodes), factory.assemblyMap.nodes, NewAssembly(), r.value)
    ensures r.Ok? ==>
      && factory.assemblyMap.nodes[r.value].data.name == GetString(reader, reader.assemblyName)
      && RefersTo(factory.assemblyMap.keys, factory.assemblyMap.nodes[r.value].data.references,
                  ReferenceIds(reader, reader.assemblyReferences).value)
      && factory.assemblyMap.nodes[r.value].data.definedTypes
         == Before(old(factory.assemblyMap.nodes), r.value, NewAssembly()).definedTypes + Nodes(scans)
    ensures r.Ok? ==>
      && Extends(old(factory.typeMap.keys), factory.typeMap.keys) && Extends(old(factory.methodMap.keys), factory.methodMap.keys)
      && RefersTo(factory.typeMap.keys, Nodes(scans), ScannedTypes(reader, reader.typeDefinitions).value)
    ensures r.Ok? ==> GrowsExcept(old(factory.typeMap.nodes), factory.typeMap.nodes, NewType(), Nodes(scans))
    ensures r.Ok? && Distinct(ScannedTypes(reader, reader.typeDefinitions).value) ==>
      TypesModelled(factory.typeMap.nodes, factory.typeMap.keys, reader, reader.typeDefinitions, scans)
    ensures r.Ok? ==> db.events == old(db.events) + [NodeCreated(AssemblyRef(r.value))] + TypeEvents(r.value, scans)
  {
    ghost var k0, n0 := factory.assemblyMap.keys, factory.assemblyMap.nodes;
    scans := [];
    var assembly := CreateAssembly(reader, factory, db);
    if assembly.Err? {
      return Err(assembly.error), scans;
    }
    var a := assembly.value;
    ghost var k1, n1 := factory.assemblyMap.keys, factory.assemblyMap.nodes;
    var contents;
    contents, scans := ScanContents(reader, factory, db, a, k1, n1, factory.typeMap.keys, factory.methodMap.keys, db.events);
    if contents.Err? {
      return Err(contents.error), scans;
    }
    ExtendsTransitive(k0, k1, factory.assemblyMap.keys);
    ExtendsKeeps(k1, factory.assemblyMap.keys, a);
    GrowsButTwice(n0, n1, factory.assemblyMap.nodes, NewAssembly(), a);
    r := Ok(a);
  }
}
