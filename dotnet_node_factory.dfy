/**
 * DotnetScanner/Model/NodeFactory.cs: the older scanner's `ModelFactory`, three
 * string-keyed maps whose misses make a node carrying the id it is stored
 * under. Nodes are referred to by position, as in the newer scanner; a field
 * write on an interned node is an `Update` on its map.
 */
module DotnetNodeFactory {
  import opened Wrappers
  import opened Graph
  import opened NetModelFactory
  import opened DotnetModel

  /** How a map's nodes may change while it is only interned into: old nodes stay, new ones are blank. */
  predicate Grows<D(==)>(nodes0: seq<Node<string, D>>, nodes1: seq<Node<string, D>>, blank: D)
  {
    && |nodes0| <= |nodes1|
    && (forall i :: 0 <= i < |nodes0| ==> nodes1[i] == nodes0[i])
    && (forall i :: |nodes0| <= i < |nodes1| ==> nodes1[i].data == blank)
  }

  /** `Grows` for every node but the one at position `q`, which the caller writes. */
  predicate GrowsBut<D(==)>(nodes0: seq<Node<string, D>>, nodes1: seq<Node<string, D>>, blank: D, q: nat)
  {
    && |nodes0| <= |nodes1|
    && (forall i :: 0 <= i < |nodes0| && i != q ==> nodes1[i] == nodes0[i])
    && (forall i :: |nodes0| <= i < |nodes1| && i != q ==> nodes1[i].data == blank)
  }

  lemma GrowsReflexive<D>(nodes: seq<Node<string, D>>, blank: D)
    ensures Grows(nodes, nodes, blank)
  {
  }

  lemma GrowsTransitive<D>(n0: seq<Node<string, D>>, n1: seq<Node<string, D>>, n2: seq<Node<string, D>>, blank: D)
    requires Grows(n0, n1, blank) && Grows(n1, n2, blank)
    ensures Grows(n0, n2, blank)
  {
  }

  /** Growth, then growth with `q` exempt, then a write on `q`: still growth with `q` exempt. */
  lemma GrowsButStep<D>(n0: seq<Node<string, D>>, n1: seq<Node<string, D>>, n2: seq<Node<string, D>>, blank: D, q: nat)
    requires GrowsBut(n0, n1, blank, q) && Grows(n1, n2, blank)
    ensures GrowsBut(n0, n2, blank, q)
  {
  }

  /** Whatever was stored before the exempt node's data: its old data, or the blank of a miss. */
  function Before<D>(nodes: seq<Node<string, D>>, q: nat, blank: D): D
  {
    if q < |nodes| then nodes[q].data else blank
  }

  /** `GrowsBut` with every position of `qs` exempt: the nodes a loop wrote, one at a time. */
  predicate GrowsExcept<D(==)>(nodes0: seq<Node<string, D>>, nodes1: seq<Node<string, D>>, blank: D, qs: seq<nat>)
  {
    && |nodes0| <= |nodes1|
    && (forall i :: 0 <= i < |nodes0| && i !in qs ==> nodes1[i] == nodes0[i])
    && (forall i :: |nodes0| <= i < |nodes1| && i !in qs ==> nodes1[i].data == blank)
  }

  lemma GrowsExceptNone<D>(nodes: seq<Node<string, D>>, blank: D)
    ensures GrowsExcept(nodes, nodes, blank, [])
  {
  }

  /** One more write at `q`, with growth around it, adds `q` to the exempt positions. */
  lemma GrowsExceptSnoc<D>(n0: seq<Node<string, D>>, n1: seq<Node<string, D>>, n2: seq<Node<string, D>>, blank: D, qs: seq<nat>, q: nat)
    requires GrowsExcept(n0, n1, blank, qs) && GrowsBut(n1, n2, blank, q)
    ensures GrowsExcept(n0, n2, blank, qs + [q])
  {
  }

  class IdMap<D(==)> {
    /** Ids in insertion order; `nodes[i]` is the node stored under `keys[i]`. */
    var keys: seq<string>
    var nodes: seq<Node<string, D>>
    /** The dictionary's lookup structure: id to position. */
    var index: map<string, nat>

    ghost predicate Valid()
      reads this
    {
      && |keys| == |nodes|
      && (forall k :: k in index ==> index[k] < |keys| && keys[index[k]] == k)
      && (forall i :: 0 <= i < |keys| ==> keys[i] in index && index[keys[i]] == i)
      && (forall i :: 0 <= i < |nodes| ==> nodes[i].id == keys[i])
    }

    constructor ()
      ensures Valid() && keys == [] && nodes == [] && index == map[]
    {
      keys := [];
      nodes := [];
      index := map[];
    }

    /**
     * `Get(id)`: the node stored under `id`, or a new node whose `Id` is `id`,
     * stored under it; `blank` is the rest of `new TNode()`. A null id makes
     * `TryGetValue` throw ArgumentNullException.
     */
    method Get(id: Option<string>, blank: D) returns (r: Result<nat>)
      requires Valid()
      modifies this
      ensures Valid()
      ensures id.None? ==> r == Err(ArgumentNull) && keys == old(keys) && nodes == old(nodes)
      ensures id.Some? ==> r.Ok? && r.value < |nodes| && keys[r.value] == id.value && nodes[r.value].id == id.value
      ensures id.Some? && old(id.value in index) ==>
        && keys == old(keys) && nodes == old(nodes) && index == old(index)
        && r.value == old(index[id.value])
      ensures id.Some? && old(id.value !in index) ==>
        && keys == old(keys) + [id.value]
        && nodes == old(nodes) + [Node(id.value, blank)]
        && index == old(index)[id.value := r.value]
        && r.value == old(|nodes|)
    {
      if id.None? {
        return Err(ArgumentNull);
      }
      var key := id.value;
      if key in index {
        r := Ok(index[key]);
      } else {
        var i := |nodes|;
        keys := keys + [key];
        nodes := nodes + [Node(key, blank)];
        index := index[key := i];
        r := Ok(i);
      }
    }

    /** A field write on the node at position `i`: its id and its key stay. */
    method Update(i: nat, data: D)
      requires Valid() && i < |nodes|
      modifies this
      ensures Valid()
      ensures keys == old(keys) && index == old(index)
      ensures nodes == old(nodes)[i := Node(old(nodes[i].id), data)]
    {
      nodes := nodes[i := Node(nodes[i].id, data)];
    }
  }

  /** A valid map never stores one id twice, so an id names one node. */
  lemma {:induction false} IdsDistinct<D>(m: IdMap<D>)
    requires m.Valid()
    ensures Distinct(m.keys)
  {
    forall i, j | 0 <= i < j < |m.keys|
      ensures m.keys[i] != m.keys[j]
    {
      assert m.index[m.keys[i]] == i && m.index[m.keys[j]] == j;
    }
  }

  /** The effect of an interning call on its map: the `Get` postcondition, as a relation. */
  ghost predicate Interned<D>(keys0: seq<string>, nodes0: seq<Node<string, D>>, index0: map<string, nat>,
                              keys1: seq<string>, nodes1: seq<Node<string, D>>,
                              id: Option<string>, blank: D, r: Result<nat>)
  {
    && (id.None? ==> r == Err(ArgumentNull) && keys1 == keys0 && nodes1 == nodes0)
    && (id.Some? && id.value in index0 ==> r == Ok(index0[id.value]) && keys1 == keys0 && nodes1 == nodes0)
    && (id.Some? && id.value !in index0 ==>
          && r == Ok(|nodes0|) && keys1 == keys0 + [id.value] && nodes1 == nodes0 + [Node(id.value, blank)])
  }

  class NodeFactory {
    const assemblyMap: IdMap<NetAssembly>
    const typeMap: IdMap<NetType>
    const methodMap: IdMap<NetMethod>

    /** The three maps are three objects: interning into one leaves the others alone. */
    predicate Separate()
    {
      assemblyMap as object != typeMap && assemblyMap as object != methodMap && typeMap as object != methodMap
    }

    ghost predicate Valid()
      reads assemblyMap, typeMap, methodMap
    {
      Separate() && assemblyMap.Valid() && typeMap.Valid() && methodMap.Valid()
    }

    constructor ()
      ensures Valid() && fresh(assemblyMap) && fresh(typeMap) && fresh(methodMap)
      ensures assemblyMap.nodes == [] && typeMap.nodes == [] && methodMap.nodes == []
    {
      assemblyMap := new IdMap();
      typeMap := new IdMap();
      methodMap := new IdMap();
    }

    /** `CreateAssemblyModel(id)`: `Get` on the assembly map. */
    method CreateAssemblyModel(id: Option<string>) returns (r: Result<nat>)
      requires Valid()
      modifies assemblyMap
      ensures Valid() && unchanged(typeMap) && unchanged(methodMap)
      ensures Interned(old(assemblyMap.keys), old(assemblyMap.nodes), old(assemblyMap.index),
                       assemblyMap.keys, assemblyMap.nodes, id, NewAssembly(), r)
      ensures r.Ok? ==> r.value < |assemblyMap.nodes| && assemblyMap.keys[r.value] == id.value
    {
      r := assemblyMap.Get(id, NewAssembly());
    }

    /** `CreateTypeModel(id)`: `Get` on the type map. */
    method CreateTypeModel(id: Option<string>) returns (r: Result<nat>)
      requires Valid()
      modifies typeMap
      ensures Valid() && unchanged(assemblyMap) && unchanged(methodMap)
      ensures Interned(old(typeMap.keys), old(typeMap.nodes), old(typeMap.index),
                       typeMap.keys, typeMap.nodes, id, NewType(), r)
      ensures r.Ok? ==> r.value < |typeMap.nodes| && typeMap.keys[r.value] == id.value
    {
      r := typeMap.Get(id, NewType());
    }

    /** `CreateMethodModel(id)`: `Get` on the method map. */
    method CreateMethodModel(id: Option<string>) returns (r: Result<nat>)
      requires Valid()
      modifies methodMap
      ensures Valid() && unchanged(assemblyMap) && unchanged(typeMap)
      ensures Interned(old(methodMap.keys), old(methodMap.nodes), old(methodMap.index),
                       methodMap.keys, methodMap.nodes, id, NewMethod(), r)
      ensures r.Ok? ==> r.value < |methodMap.nodes| && methodMap.keys[r.value] == id.value
    {
      r := methodMap.Get(id, NewMethod());
    }
  }

  /** An interning call only grows its map, and grows its keys by appending. */
  lemma InternedGrows<D>(keys0: seq<string>, nodes0: seq<Node<string, D>>, index0: map<string, nat>,
                         keys1: seq<string>, nodes1: seq<Node<string, D>>,
                         id: Option<string>, blank: D, r: Result<nat>)
    requires Interned(keys0, nodes0, index0, keys1, nodes1, id, blank, r)
    ensures Grows(nodes0, nodes1, blank) && Extends(keys0, keys1)
  {
    assert keys0[..|keys0|] == keys0;
    if id.Some? && id.value !in index0 {
      assert keys1[..|keys0|] == keys0;
    }
  }
}
