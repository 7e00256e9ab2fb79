/**
 * DotnetScanner/Scanner/ReflectionScanner.cs: every assembly is scanned first
 * (each scan writing its own nodes to the database as it goes), then each
 * scanned assembly, in order, is connected: a DEPENDS_ON edge per reference,
 * then, for every type it defines, the EXTENDS edge to its base type and the
 * IMPLEMENTS edges to the interfaces neither its base type nor another listed
 * interface already implements. Opening a file as a metadata reader is left
 * out: the scanner is handed the readers.
 */
module DotnetReflectionScanner {
  import opened Wrappers
  import opened Srm
  import opened Graph
  import opened Linq
  import opened NetModelFactory
  import opened DotnetIds
  import opened DotnetModel
  import opened DotnetNodeFactory
  import opened DotnetAssemblyScanner

  type Log = seq<Event<NodeRef>>

  /** The assembly and type records the connecting steps read, taken from the factory after every scan. */
  datatype Models = Models(assemblies: seq<NetAssembly>, types: seq<NetType>)

  function Records<D>(nodes: seq<Node<string, D>>): (ds: seq<D>)
    ensures |ds| == |nodes| && forall i :: 0 <= i < |nodes| ==> ds[i] == nodes[i].data
  {
    seq(|nodes|, i requires 0 <= i < |nodes| => nodes[i].data)
  }

  function ModelsOf(factory: NodeFactory): (m: Models)
    reads factory.assemblyMap, factory.typeMap
    ensures |m.assemblies| == |factory.assemblyMap.nodes| && |m.types| == |factory.typeMap.nodes|
  {
    Models(Records(factory.assemblyMap.nodes), Records(factory.typeMap.nodes))
  }

  /** Following a reference: the record at a position, or a blank record for one outside the map. */
  function AssemblyAt(m: Models, p: nat): NetAssembly { if p < |m.assemblies| then m.assemblies[p] else NewAssembly() }
  function TypeAt(m: Models, p: nat): NetType { if p < |m.types| then m.types[p] else NewType() }

  function DependsOnEdge(a: nat): nat -> Log
  {
    (r: nat) => [RelationshipCreated(AssemblyRef(a), AssemblyRef(r), DependsOn)]
  }

  /** `ConnectAssemblyReferences`. */
  function DependsLog(m: Models, a: nat): Log
  {
    SelectMany(AssemblyAt(m, a).references, DependsOnEdge(a))
  }

  /** `ConnectBaseType`. */
  function BaseLog(m: Models, t: nat): Log
  {
    var n := TypeAt(m, t);
    if n.baseType.Some? then [RelationshipCreated(TypeRef(t), TypeRef(n.baseType.value), ExtendsKind)] else []
  }

  function InterfacesOf(m: Models): nat -> seq<nat> { (i: nat) => TypeAt(m, i).implements }

  /** `interfacesFromBaseInterfaces`: the base type's interfaces (none without a base type), then those of every listed interface. */
  function InheritedInterfaces(m: Models, t: nat): seq<nat>
  {
    var n := TypeAt(m, t);
    (if n.baseType.Some? then TypeAt(m, n.baseType.value).implements else [])
    + SelectMany(n.implements, InterfacesOf(m))
  }

  /** The interfaces that get an IMPLEMENTS edge: `Implements.Except(interfacesFromBaseInterfaces)`. */
  function DirectInterfaces(m: Models, t: nat): seq<nat>
  {
    Except(TypeAt(m, t).implements, InheritedInterfaces(m, t))
  }

  function ImplementsEdge(t: nat): nat -> Log
  {
    (i: nat) => [RelationshipCreated(TypeRef(t), TypeRef(i), Implements)]
  }

  /** `ConnectInterfaceImplementations`. */
  function ImplementsLog(m: Models, t: nat): Log
  {
    SelectMany(DirectInterfaces(m, t), ImplementsEdge(t))
  }

  /** The body of the `ConnectTypes` loop. */
  function TypeLog(m: Models, t: nat): Log
  {
    BaseLog(m, t) + ImplementsLog(m, t)
  }

  function TypeOf(m: Models): nat -> Log { (t: nat) => TypeLog(m, t) }

  /** `ConnectTypes`: the types the assembly defines, in order. */
  function TypesLog(m: Models, a: nat): Log
  {
    SelectMany(AssemblyAt(m, a).definedTypes, TypeOf(m))
  }

  /** The body of the second loop of `Scan`: references first, then types. */
  function ConnectLog(m: Models, a: nat): Log
  {
    DependsLog(m, a) + TypesLog(m, a)
  }

  function ConnectOf(m: Models): nat -> Log { (a: nat) => ConnectLog(m, a) }

  /** The second loop of `Scan`, over the scanned assemblies in order. */
  function ConnectAllLog(m: Models, assemblies: seq<nat>): Log
  {
    SelectMany(assemblies, ConnectOf(m))
  }

  /** What one `AssemblyScanner.Scan` writes: the assembly node, then the nodes and edges of its kept types. */
  function AssemblyEvents(a: nat, scans: seq<TypeScan>): Log
  {
    [NodeCreated(AssemblyRef(a))] + TypeEvents(a, scans)
  }

  /** What the first loop of `Scan` writes, assembly after assembly. */
  function ScansLog(assemblies: seq<nat>, scanss: seq<seq<TypeScan>>): Log
    requires |assemblies| == |scanss|
  {
    if |assemblies| == 0 then []
    else
      var n := |assemblies| - 1;
      ScansLog(assemblies[..n], scanss[..n]) + AssemblyEvents(assemblies[n], scanss[n])
  }

  lemma ScansLogSnoc(assemblies: seq<nat>, scanss: seq<seq<TypeScan>>, a: nat, scans: seq<TypeScan>)
    requires |assemblies| == |scanss|
    ensures ScansLog(assemblies + [a], scanss + [scans]) == ScansLog(assemblies, scanss) + AssemblyEvents(a, scans)
  {
    assert (assemblies + [a])[..|assemblies|] == assemblies;
    assert (scanss + [scans])[..|scanss|] == scanss;
  }

  predicate AllWellFormed(readers: seq<MetadataReader>)
  {
    forall i :: 0 <= i < |readers| ==> WellFormed(readers[i])
  }

  /** How the scan of each reader ends: `None` when it returns, the exception it throws otherwise. */
  function Failures(readers: seq<MetadataReader>): (fs: seq<Option<Failure>>)
    requires AllWellFormed(readers)
    ensures |fs| == |readers| && forall i :: 0 <= i < |readers| ==> fs[i] == AssemblyFailure(readers[i])
  {
    seq(|readers|, i requires 0 <= i < |readers| && AllWellFormed(readers) => AssemblyFailure(readers[i]))
  }

  /** The assembly name each reader holds. */
  function Names(readers: seq<MetadataReader>): (ns: seq<Option<string>>)
    requires AllWellFormed(readers)
    ensures |ns| == |readers| && forall i :: 0 <= i < |readers| ==> ns[i] == GetString(readers[i], readers[i].assemblyName)
  {
    seq(|readers|, i requires 0 <= i < |readers| && AllWellFormed(readers) => GetString(readers[i], readers[i].assemblyName))
  }

  /** The ids of the types the scan of `reader` keeps; when the scan returns, they are `ScannedTypes` of its definitions. */
  function KeptTypes(reader: MetadataReader): (ids: seq<string>)
    requires WellFormed(reader)
    ensures AssemblyFailure(reader).None? ==> ScannedTypes(reader, reader.typeDefinitions) == Ok(ids)
  {
    TypeDefinitionsValid(reader);
    var s := ScannedTypes(reader, reader.typeDefinitions);
    if s.Ok? then s.value else []
  }

  /** The kept types of each reader. */
  function Kept(readers: seq<MetadataReader>): (ks: seq<seq<string>>)
    requires AllWellFormed(readers)
    ensures |ks| == |readers| && forall i :: 0 <= i < |readers| ==> ks[i] == KeptTypes(readers[i])
  {
    seq(|readers|, i requires 0 <= i < |readers| && AllWellFormed(readers) => KeptTypes(readers[i]))
  }

  /** Each scan so far returned the nodes of its reader's kept types, and they are still interned under those ids. */
  ghost predicate TypesKept(typeKeys: seq<string>, tk0: seq<string>, kept: seq<seq<string>>, scanss: seq<seq<TypeScan>>)
  {
    && Extends(tk0, typeKeys) && |scanss| <= |kept|
    && forall i :: 0 <= i < |scanss| ==> RefersTo(typeKeys, Nodes(scanss[i]), kept[i])
  }

  /** One more scan whose nodes refer to its reader's kept types keeps every earlier scan's nodes referring to theirs. */
  lemma TypesKeptSnoc(tk1: seq<string>, tk2: seq<string>, tk0: seq<string>, kept: seq<seq<string>>,
                      scanss: seq<seq<TypeScan>>, scans: seq<TypeScan>)
    requires TypesKept(tk1, tk0, kept, scanss) && |scanss| < |kept|
    requires Extends(tk1, tk2) && RefersTo(tk2, Nodes(scans), kept[|scanss|])
    ensures TypesKept(tk2, tk0, kept, scanss + [scans])
  {
    ExtendsTransitive(tk0, tk1, tk2);
    forall i | 0 <= i < |scanss|
      ensures RefersTo(tk2, Nodes(scanss[i]), kept[i])
    {
      RefersToExtended(tk1, tk2, Nodes(scanss[i]), kept[i]);
    }
    assert (scanss + [scans])[|scanss|] == scans;
  }

  /** After every reader, each scan's nodes refer to the kept types of its own reader. */
  lemma TypesKeptAll(typeKeys: seq<string>, tk0: seq<string>, readers: seq<MetadataReader>, scanss: seq<seq<TypeScan>>)
    requires AllWellFormed(readers) && TypesKept(typeKeys, tk0, Kept(readers), scanss) && |scanss| == |readers|
    ensures Extends(tk0, typeKeys)
    ensures forall i :: 0 <= i < |readers| ==> RefersTo(typeKeys, Nodes(scanss[i]), KeptTypes(readers[i]))
  {
  }

  /** Every reader's kept type ids, reader after reader. */
  function AllKept(kept: seq<seq<string>>): seq<string>
  {
    if |kept| == 0 then [] else AllKept(kept[..|kept| - 1]) + kept[|kept| - 1]
  }

  /** Every id some reader keeps is among `AllKept`. */
  lemma {:induction false} AllKeptHas(kept: seq<seq<string>>, i: nat)
    requires i < |kept|
    ensures forall x :: x in kept[i] ==> x in AllKept(kept)
    decreases |kept|
  {
    var n := |kept| - 1;
    if i < n {
      AllKeptHas(kept[..n], i);
      assert kept[..n][i] == kept[i];
    }
  }

  lemma AllKeptSnoc(kept: seq<seq<string>>, j: nat)
    requires j < |kept|
    ensures AllKept(kept[..j + 1]) == AllKept(kept[..j]) + kept[j]
  {
    assert kept[..j + 1][..j] == kept[..j];
  }

  /** Each scan so far left the node of every type it kept modelling that type's definition. */
  ghost predicate AllModelled(nodes: seq<Node<string, NetType>>, keys: seq<string>, readers: seq<MetadataReader>,
                              scanss: seq<seq<TypeScan>>)
    requires AllWellFormed(readers)
  {
    && |scanss| <= |readers|
    && forall i :: 0 <= i < |scanss| ==> TypesModelled(nodes, keys, readers[i], readers[i].typeDefinitions, scanss[i])
  }

  /** No type id is kept by two readers, nor twice by one. */
  ghost predicate NoIdKeptTwice(readers: seq<MetadataReader>)
    requires AllWellFormed(readers)
  {
    Distinct(AllKept(Kept(readers)))
  }

  /**
   * A scan that wrote only nodes interned under ids none of the earlier
   * readers kept leaves their kept types modelling their definitions.
   */
  lemma AllModelledApart(n1: seq<Node<string, NetType>>, k1: seq<string>, n2: seq<Node<string, NetType>>, k2: seq<string>,
                         readers: seq<MetadataReader>, tk0: seq<string>, kept: seq<seq<string>>,
                         scanss: seq<seq<TypeScan>>, qs: seq<nat>, others: seq<string>)
    requires AllWellFormed(readers) && AllModelled(n1, k1, readers, scanss) && TypesKept(k1, tk0, kept, scanss)
    requires Extends(k1, k2) && GrowsExcept(n1, n2, NewType(), qs) && RefersTo(k2, qs, others)
    requires forall x :: x in AllKept(kept[..|scanss|]) ==> x !in others
    ensures AllModelled(n2, k2, readers, scanss)
  {
    var j := |scanss|;
    forall i | 0 <= i < j
      ensures TypesModelled(n2, k2, readers[i], readers[i].typeDefinitions, scanss[i])
    {
      AllKeptHas(kept[..j], i);
      assert kept[..j][i] == kept[i];
      assert WellFormed(readers[i]) && TypesModelled(n1, k1, readers[i], readers[i].typeDefinitions, scanss[i]);
      assert RefersTo(k1, Nodes(scanss[i]), kept[i]);
      TypesModelledApart(n1, k1, n2, k2, readers[i], readers[i].typeDefinitions, scanss[i], kept[i], qs, others);
    }
  }

  lemma AllModelledSnoc(nodes: seq<Node<string, NetType>>, keys: seq<string>, readers: seq<MetadataReader>,
                        scanss: seq<seq<TypeScan>>, scans: seq<TypeScan>)
    requires AllWellFormed(readers) && AllModelled(nodes, keys, readers, scanss) && |scanss| < |readers|
    requires TypesModelled(nodes, keys, readers[|scanss|], readers[|scanss|].typeDefinitions, scans)
    ensures AllModelled(nodes, keys, readers, scanss + [scans])
  {
    assert forall i :: 0 <= i < |scanss| ==> (scanss + [scans])[i] == scanss[i];
    assert (scanss + [scans])[|scanss|] == scans;
  }

  /**
   * The type nodes during the scanning loop: `TypesKept`, and, when the
   * readers scanned so far keep no id twice, `AllModelled`.
   */
  ghost predicate TypesLoop(nodes: seq<Node<string, NetType>>, keys: seq<string>, tk0: seq<string>,
                            readers: seq<MetadataReader>, kept: seq<seq<string>>, scanss: seq<seq<TypeScan>>)
    requires AllWellFormed(readers)
  {
    && TypesKept(keys, tk0, kept, scanss)
    && (Distinct(AllKept(kept[..|scanss|])) ==> AllModelled(nodes, keys, readers, scanss))
  }

  lemma TypesLoopNone(nodes: seq<Node<string, NetType>>, keys: seq<string>, readers: seq<MetadataReader>, kept: seq<seq<string>>)
    requires AllWellFormed(readers)
    ensures TypesLoop(nodes, keys, keys, readers, kept, [])
  {
    ExtendsReflexive(keys);
  }

  /** One more scan, as `DotnetAssemblyScanner.Scan` promises it, takes `TypesLoop` one reader further. */
  lemma TypesLoopSnoc(n1: seq<Node<string, NetType>>, k1: seq<string>, n2: seq<Node<string, NetType>>, k2: seq<string>,
                      readers: seq<MetadataReader>, tk0: seq<string>, kept: seq<seq<string>>,
                      scanss: seq<seq<TypeScan>>, scans: seq<TypeScan>)
    requires AllWellFormed(readers) && kept == Kept(readers) && |scanss| < |readers|
    requires TypesLoop(n1, k1, tk0, readers, kept, scanss)
    requires Extends(k1, k2) && GrowsExcept(n1, n2, NewType(), Nodes(scans)) && RefersTo(k2, Nodes(scans), kept[|scanss|])
    requires Distinct(kept[|scanss|]) ==>
      TypesModelled(n2, k2, readers[|scanss|], readers[|scanss|].typeDefinitions, scans)
    ensures TypesLoop(n2, k2, tk0, readers, kept, scanss + [scans])
  {
    var j := |scanss|;
    TypesKeptSnoc(k1, k2, tk0, kept, scanss, scans);
    AllKeptSnoc(kept, j);
    if Distinct(AllKept(kept[..j + 1])) {
      DistinctSplit(AllKept(kept[..j]), kept[j]);
      AllModelledApart(n1, k1, n2, k2, readers, tk0, kept, scanss, Nodes(scans), kept[j]);
      AllModelledSnoc(n2, k2, readers, scanss, scans);
    }
  }

  /** After every reader, each scan's nodes refer to its reader's kept types, and model them when no id is kept twice. */
  lemma TypesLoopAll(nodes: seq<Node<string, NetType>>, keys: seq<string>, tk0: seq<string>,
                     readers: seq<MetadataReader>, scanss: seq<seq<TypeScan>>)
    requires AllWellFormed(readers) && |scanss| == |readers| && TypesLoop(nodes, keys, tk0, readers, Kept(readers), scanss)
    ensures Extends(tk0, keys)
    ensures forall i :: 0 <= i < |readers| ==> RefersTo(keys, Nodes(scanss[i]), KeptTypes(readers[i]))
    ensures NoIdKeptTwice(readers) ==> AllModelled(nodes, keys, readers, scanss)
  {
    assert Kept(readers)[..|readers|] == Kept(readers);
    TypesKeptAll(keys, tk0, readers, scanss);
  }

  /** The first failure of a sequence of scans, as `Select(ScanAssembly).ToList()` propagates it. */
  function FirstFailure(fs: seq<Option<Failure>>): Option<Failure>
  {
    if |fs| == 0 then None
    else if FirstFailure(fs[..|fs| - 1]).Some? then FirstFailure(fs[..|fs| - 1])
    else fs[|fs| - 1]
  }

  /** There is no first failure exactly when no scan fails; otherwise it is the failure of the first scan that fails. */
  lemma {:induction false} FirstFailureFirst(fs: seq<Option<Failure>>)
    ensures FirstFailure(fs).None? <==> forall i :: 0 <= i < |fs| ==> fs[i].None?
    ensures FirstFailure(fs).Some? ==>
      exists i :: 0 <= i < |fs| && fs[i] == FirstFailure(fs) && forall k :: 0 <= k < i ==> fs[k].None?
    decreases |fs|
  {
    if |fs| > 0 {
      var n := |fs| - 1;
      var init := fs[..n];
      assert forall i :: 0 <= i < n ==> init[i] == fs[i];
      FirstFailureFirst(init);
      if FirstFailure(init).Some? {
        var i :| 0 <= i < n && init[i] == FirstFailure(init) && forall k :: 0 <= k < i ==> init[k].None?;
        assert fs[i] == FirstFailure(fs);
      }
    }
  }

  lemma FirstFailureStep(fs: seq<Option<Failure>>, j: nat)
    requires j < |fs|
    ensures FirstFailure(fs[..j + 1]) == if FirstFailure(fs[..j]).Some? then FirstFailure(fs[..j]) else fs[j]
  {
    assert fs[..j + 1][..j] == fs[..j];
  }

  /** Scanning on after a failure changes nothing: the first failure stays the one reported. */
  lemma {:induction false} FirstFailurePrefix(fs: seq<Option<Failure>>, j: nat)
    requires j <= |fs| && FirstFailure(fs[..j]).Some?
    ensures FirstFailure(fs) == FirstFailure(fs[..j])
    decreases |fs| - j
  {
    if j < |fs| {
      FirstFailureStep(fs, j);
      FirstFailurePrefix(fs, j + 1);
    } else {
      assert fs[..j] == fs;
    }
  }

  /**
   * How `Scan` fails: `Select(ScanAssembly)` stops at the first reader whose
   * scan throws, with that scan's exception (see `FirstFailureFirst`).
   */
  function ScanFailure(readers: seq<MetadataReader>): Option<Failure>
    requires AllWellFormed(readers)
  {
    FirstFailure(Failures(readers))
  }

  /** `Scan` fails exactly when some scan fails, and then with the failure of the first one that does. */
  lemma ScanFailureFirst(readers: seq<MetadataReader>)
    requires AllWellFormed(readers)
    ensures ScanFailure(readers).None? <==> forall i :: 0 <= i < |readers| ==> AssemblyFailure(readers[i]).None?
    ensures ScanFailure(readers).Some? ==>
      exists i :: 0 <= i < |readers| && AssemblyFailure(readers[i]) == ScanFailure(readers)
                  && forall k :: 0 <= k < i ==> AssemblyFailure(readers[k]).None?
  {
    var fs := Failures(readers);
    FirstFailureFirst(fs);
    if FirstFailure(fs).Some? {
      var i :| 0 <= i < |fs| && fs[i] == FirstFailure(fs) && forall k :: 0 <= k < i ==> fs[k].None?;
      assert AssemblyFailure(readers[i]) == ScanFailure(readers);
    }
  }

  /** The keys hold, at the position each scan returned, the name of the assembly scanned. */
  ghost predicate Named(keys: seq<string>, assemblies: seq<nat>, names: seq<Option<string>>)
  {
    forall i :: 0 <= i < |assemblies| ==> i < |names| && assemblies[i] < |keys| && Some(keys[assemblies[i]]) == names[i]
  }

  lemma NamedSnoc(k1: seq<string>, k2: seq<string>, assemblies: seq<nat>, names: seq<Option<string>>, a: nat)
    requires |assemblies| < |names| && Named(k1, assemblies, names) && Extends(k1, k2)
    requires a < |k2| && Some(k2[a]) == names[|assemblies|]
    ensures Named(k2, assemblies + [a], names)
  {
    forall i | 0 <= i < |assemblies|
      ensures assemblies[i] < |k2| && k2[assemblies[i]] == k1[assemblies[i]]
    {
      ExtendsKeeps(k1, k2, assemblies[i]);
    }
  }

  /** The state of the scanning loop after `j` readers, or after the one that failed. */
  ghost predicate ScanLoop(keys: seq<string>, events: Log, fs: seq<Option<Failure>>, names: seq<Option<string>>,
                           k0: seq<string>, e0: Log, r: Result<()>, assemblies: seq<nat>, scanss: seq<seq<TypeScan>>, j: nat)
  {
    && j <= |fs| && |names| == |fs|
    && (r.Err? ==> 0 < j && FirstFailure(fs[..j]) == Some(r.error))
    && (r.Ok? ==>
          && FirstFailure(fs[..j]).None? && |assemblies| == j && |scanss| == j && Extends(k0, keys)
          && Named(keys, assemblies, names)
          && events == e0 + ScansLog(assemblies, scanss))
  }

  /** A scan of the next reader that fails ends the scanning loop with its failure. */
  lemma ScanLoopFailed(k1: seq<string>, e1: Log, k2: seq<string>, e2: Log, fs: seq<Option<Failure>>, names: seq<Option<string>>,
                       k0: seq<string>, e0: Log, assemblies: seq<nat>, scanss: seq<seq<TypeScan>>, j: nat, f: Failure)
    requires j < |fs| && ScanLoop(k1, e1, fs, names, k0, e0, Ok(()), assemblies, scanss, j)
    requires fs[j] == Some(f)
    ensures ScanLoop(k2, e2, fs, names, k0, e0, Err(f), assemblies, scanss, j + 1)
  {
    FirstFailureStep(fs, j);
  }

  /** A scan of the next reader that returns takes the scanning loop one reader further. */
  lemma ScanLoopScanned(k1: seq<string>, e1: Log, k2: seq<string>, e2: Log, fs: seq<Option<Failure>>, names: seq<Option<string>>,
                        k0: seq<string>, e0: Log, assemblies: seq<nat>, scanss: seq<seq<TypeScan>>, j: nat, a: nat, scans: seq<TypeScan>)
    requires j < |fs| && ScanLoop(k1, e1, fs, names, k0, e0, Ok(()), assemblies, scanss, j)
    requires fs[j].None? && a < |k2| && Some(k2[a]) == names[j]
    requires Extends(k1, k2) && e2 == e1 + [NodeCreated(AssemblyRef(a))] + TypeEvents(a, scans)
    ensures ScanLoop(k2, e2, fs, names, k0, e0, Ok(()), assemblies + [a], scanss + [scans], j + 1)
  {
    FirstFailureStep(fs, j);
    ExtendsTransitive(k0, k1, k2);
    NamedSnoc(k1, k2, assemblies, names, a);
    ScansLogSnoc(assemblies, scanss, a, scans);
    Appended(e0, ScansLog(assemblies, scanss), AssemblyEvents(a, scans));
  }

  /** `RelationshipCreated` events only. */
  ghost predicate Relationships(log: Log)
  {
    forall e :: e in log ==> e.RelationshipCreated?
  }

  class ReflectionScanner {
    /** `_assemblies`, each already opened as a metadata reader. */
    const readers: seq<MetadataReader>
    const factory: NodeFactory
    const db: Transaction<NodeRef>

    constructor (readers: seq<MetadataReader>, factory: NodeFactory, db: Transaction<NodeRef>)
      ensures this.readers == readers && this.factory == factory && this.db == db
    {
      this.readers := readers;
      this.factory := factory;
      this.db := db;
    }

    /**
     * `Scan`: every reader is scanned, or the first failing scan's exception
     * escapes; then each returned assembly is connected, reading the factory
     * as the scans left it. When no type id is kept twice, the type records
     * the connecting steps read at each kept type's node (`ModelsOf` takes
     * them from `factory.typeMap.nodes`) model that type's definition, base
     * type and interfaces included (`AllModelled`).
     */
    method Scan() returns (r: Result<()>, ghost assemblies: seq<nat>, ghost scanss: seq<seq<TypeScan>>)
      requires AllWellFormed(readers) && factory.Valid()
      modifies db, factory.assemblyMap, factory.typeMap, factory.methodMap
      ensures factory.Valid()
      ensures r.Ok? <==> ScanFailure(readers).None?
      ensures r.Err? ==> ScanFailure(readers) == Some(r.error)
      ensures r.Ok? ==>
        && |assemblies| == |readers| && |scanss| == |readers|
        && Extends(old(factory.assemblyMap.keys), factory.assemblyMap.keys)
        && Named(factory.assemblyMap.keys, assemblies, Names(readers))
        && Extends(old(factory.typeMap.keys), factory.typeMap.keys)
        && (forall i :: 0 <= i < |readers| ==> RefersTo(factory.typeMap.keys, Nodes(scanss[i]), KeptTypes(readers[i])))
        && db.events == old(db.events) + ScansLog(assemblies, scanss) + ConnectAllLog(ModelsOf(factory), assemblies)
      ensures r.Ok? && NoIdKeptTwice(readers) ==> AllModelled(factory.typeMap.nodes, factory.typeMap.keys, readers, scanss)
    {
      var scanned;
      scanned, scanss := ScanAssemblies();
      if scanned.Err? {
        return Err(scanned.error), [], scanss;
      }
      var all := scanned.value;
      assemblies := all;
      var m := ModelsOf(factory);
      ConnectAll(m, all);
      Appended(old(db.events), ScansLog(assemblies, scanss), ConnectAllLog(m, all));
      r := Ok(());
    }

    /** `_assemblies.Select(ScanAssembly).ToList()`. */
    method ScanAssemblies() returns (r: Result<seq<nat>>, ghost scanss: seq<seq<TypeScan>>)
      requires AllWellFormed(readers) && factory.Valid()
      modifies db, factory.assemblyMap, factory.typeMap, factory.methodMap
      ensures factory.Valid()
      ensures r.Ok? <==> ScanFailure(readers).None?
      ensures r.Err? ==> ScanFailure(readers) == Some(r.error)
      ensures r.Ok? ==>
        && |r.value| == |readers| && |scanss| == |readers|
        && Extends(old(factory.assemblyMap.keys), factory.assemblyMap.keys)
        && Named(factory.assemblyMap.keys, r.value, Names(readers))
        && Extends(old(factory.typeMap.keys), factory.typeMap.keys)
        && (forall i :: 0 <= i < |readers| ==> RefersTo(factory.typeMap.keys, Nodes(scanss[i]), KeptTypes(readers[i])))
        && db.events == old(db.events) + ScansLog(r.value, scanss)
      ensures r.Ok? && NoIdKeptTwice(readers) ==> AllModelled(factory.typeMap.nodes, factory.typeMap.keys, readers, scanss)
    {
      ghost var k0, e0, tk0 := factory.assemblyMap.keys, db.events, factory.typeMap.keys;
      ghost var fs, kept := Failures(readers), Kept(readers);
      var result, assemblies, j;
      result, assemblies, scanss, j := ScanEach(fs, Names(readers), kept);
      if result.Err? {
        FirstFailurePrefix(fs, j);
        return Err(result.error), scanss;
      }
      assert fs[..|readers|] == fs;
      TypesLoopAll(factory.typeMap.nodes, factory.typeMap.keys, tk0, readers, scanss);
      r := Ok(assemblies);
    }

    /** The loop of `Select(ScanAssembly)`: reader after reader, until one scan throws. */
    method ScanEach(ghost fs: seq<Option<Failure>>, ghost names: seq<Option<string>>, ghost kept: seq<seq<string>>)
      returns (result: Result<()>, assemblies: seq<nat>, ghost scanss: seq<seq<TypeScan>>, j: nat)
      requires AllWellFormed(readers) && fs == Failures(readers) && names == Names(readers) && kept == Kept(readers)
      requires factory.Valid()
      modifies db, factory.assemblyMap, factory.typeMap, factory.methodMap
      ensures factory.Valid()
      ensures ScanLoop(factory.assemblyMap.keys, db.events, fs, names, old(factory.assemblyMap.keys), old(db.events),
                       result, assemblies, scanss, j)
      ensures result.Ok? ==> j == |readers|
      ensures result.Ok? ==> TypesLoop(factory.typeMap.nodes, factory.typeMap.keys, old(factory.typeMap.keys), readers, kept, scanss)
    {
      ghost var k0, e0, tk0 := factory.assemblyMap.keys, db.events, factory.typeMap.keys;
      assemblies, scanss := [], [];
      result := Ok(());
      j := 0;
      ExtendsReflexive(k0);
      TypesLoopNone(factory.typeMap.nodes, tk0, readers, kept);
      while j < |readers| && result.Ok?
        invariant factory.Valid()
        invariant ScanLoop(factory.assemblyMap.keys, db.events, fs, names, k0, e0, result, assemblies, scanss, j)
        invariant result.Ok? ==> TypesLoop(factory.typeMap.nodes, factory.typeMap.keys, tk0, readers, kept, scanss)
        decreases |readers| - j
      {
        result, assemblies, scanss := ScanNext(fs, names, kept, k0, tk0, e0, assemblies, scanss, j);
        j := j + 1;
      }
    }

    /** One step of `Select(ScanAssembly)`: the scan of `readers[j]`. */
    method ScanNext(ghost fs: seq<Option<Failure>>, ghost names: seq<Option<string>>, ghost kept: seq<seq<string>>,
                    ghost k0: seq<string>, ghost tk0: seq<string>, ghost e0: Log,
                    assemblies: seq<nat>, ghost scanss: seq<seq<TypeScan>>, j: nat)
      returns (r: Result<()>, assemblies': seq<nat>, ghost scanss': seq<seq<TypeScan>>)
      requires AllWellFormed(readers) && fs == Failures(readers) && names == Names(readers) && kept == Kept(readers)
      requires j < |readers| && factory.Valid()
      requires ScanLoop(factory.assemblyMap.keys, db.events, fs, names, k0, e0, Ok(()), assemblies, scanss, j)
      requires TypesLoop(factory.typeMap.nodes, factory.typeMap.keys, tk0, readers, kept, scanss)
      modifies db, factory.assemblyMap, factory.typeMap, factory.methodMap
      ensures factory.Valid()
      ensures ScanLoop(factory.assemblyMap.keys, db.events, fs, names, k0, e0, r, assemblies', scanss', j + 1)
      ensures r.Ok? ==> TypesLoop(factory.typeMap.nodes, factory.typeMap.keys, tk0, readers, kept, scanss')
    {
      ghost var k1, tk1, tn1, e1 := factory.assemblyMap.keys, factory.typeMap.keys, factory.typeMap.nodes, db.events;
      var a, scans := DotnetAssemblyScanner.Scan(readers[j], factory, db);
      if a.Err? {
        ScanLoopFailed(k1, e1, factory.assemblyMap.keys, db.events, fs, names, k0, e0, assemblies, scanss, j, a.error);
        return Err(a.error), assemblies, scanss;
      }
      ScanLoopScanned(k1, e1, factory.assemblyMap.keys, db.events, fs, names, k0, e0, assemblies, scanss, j, a.value, scans);
      TypesLoopSnoc(tn1, tk1, factory.typeMap.nodes, factory.typeMap.keys, readers, tk0, kept, scanss, scans);
      r, assemblies', scanss' := Ok(()), assemblies + [a.value], scanss + [scans];
    }

    /** The second loop of `Scan`. */
    method ConnectAll(m: Models, assemblies: seq<nat>)
      modifies db
      ensures db.events == old(db.events) + ConnectAllLog(m, assemblies)
    {
      for i := 0 to |assemblies|
        invariant db.events == old(db.events) + SelectMany(assemblies[..i], ConnectOf(m))
      {
        ghost var e1 := db.events;
        ConnectAssemblyReferences(m, assemblies[i]);
        ConnectTypes(m, assemblies[i]);
        Appended(e1, DependsLog(m, assemblies[i]), TypesLog(m, assemblies[i]));
        SelectManyStep(assemblies, ConnectOf(m), i);
        Appended(old(db.events), SelectMany(assemblies[..i], ConnectOf(m)), ConnectLog(m, assemblies[i]));
      }
      SelectManyAll(assemblies, ConnectOf(m));
    }

    /** `ConnectAssemblyReferences`: one DEPENDS_ON per reference. */
    method ConnectAssemblyReferences(m: Models, a: nat)
      modifies db
      ensures db.events == old(db.events) + DependsLog(m, a)
    {
      var references := AssemblyAt(m, a).references;
      for i := 0 to |references|
        invariant db.events == old(db.events) + SelectMany(references[..i], DependsOnEdge(a))
      {
        db.CreateRelationship(AssemblyRef(a), AssemblyRef(references[i]), DependsOn);
        SelectManyStep(references, DependsOnEdge(a), i);
      }
      SelectManyAll(references, DependsOnEdge(a));
    }

    /** `ConnectTypes`: the defined types, each its base type, then its interfaces. */
    method ConnectTypes(m: Models, a: nat)
      modifies db
      ensures db.events == old(db.events) + TypesLog(m, a)
    {
      var types := AssemblyAt(m, a).definedTypes;
      for i := 0 to |types|
        invariant db.events == old(db.events) + SelectMany(types[..i], TypeOf(m))
      {
        ghost var e1 := db.events;
        ConnectBaseType(m, types[i]);
        ConnectInterfaceImplementations(m, types[i]);
        Appended(e1, BaseLog(m, types[i]), ImplementsLog(m, types[i]));
        SelectManyStep(types, TypeOf(m), i);
        Appended(old(db.events), SelectMany(types[..i], TypeOf(m)), TypeLog(m, types[i]));
      }
      SelectManyAll(types, TypeOf(m));
    }

    /** `ConnectBaseType`. */
    method ConnectBaseType(m: Models, t: nat)
      modifies db
      ensures db.events == old(db.events) + BaseLog(m, t)
    {
      var baseType := TypeAt(m, t).baseType;
      if baseType.Some? {
        db.CreateRelationship(TypeRef(t), TypeRef(baseType.value), ExtendsKind);
      }
    }

    /** `ConnectInterfaceImplementations`. */
    method ConnectInterfaceImplementations(m: Models, t: nat)
      modifies db
      ensures db.events == old(db.events) + ImplementsLog(m, t)
    {
      var interfaces := DirectInterfaces(m, t);
      for i := 0 to |interfaces|
        invariant db.events == old(db.events) + SelectMany(interfaces[..i], ImplementsEdge(t))
      {
        db.CreateRelationship(TypeRef(t), TypeRef(interfaces[i]), Implements);
        SelectManyStep(interfaces, ImplementsEdge(t), i);
      }
      SelectManyAll(interfaces, ImplementsEdge(t));
    }
  }

  lemma Appended<T>(e: seq<T>, a: seq<T>, b: seq<T>)
    ensures e + a + b == e + (a + b)
  {
  }
}
