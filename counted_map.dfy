/**
 * `ModelFactory.ModelMap<TKey, TNode>` of the newer scanner (and its copy in the
 * older one): a dictionary from keys to interned nodes whose misses draw a fresh
 * id from a counter. The dictionary's values are kept in insertion order, which
 * is the order `Models` enumerates them in (nothing is ever removed).
 */
module CountedMap {
  import opened Graph

  /** The id of the node at position `i`. */
  ghost function IdAt<D>(nodes: seq<Node<int, D>>, i: int): int
    requires 0 <= i < |nodes|
  {
    nodes[i].id
  }

  /** Strictly increasing ids, all below `bound`. */
  ghost predicate FreshIds<D>(nodes: seq<Node<int, D>>, bound: int)
  {
    && (forall i, j {:trigger IdAt(nodes, i), IdAt(nodes, j)} :: 0 <= i < j < |nodes| ==> IdAt(nodes, i) < IdAt(nodes, j))
    && (forall i {:trigger IdAt(nodes, i)} :: 0 <= i < |nodes| ==> IdAt(nodes, i) < bound)
  }

  /** The positions 0 to n - 1, in order. */
  function Positions(n: nat): (ps: seq<nat>)
    ensures |ps| == n && forall i :: 0 <= i < n ==> ps[i] == i
  {
    seq(n, i => i)
  }

  class ModelMap<K(==), D> {
    /**
     * The `static long _nextId` of the map's closed generic type. The model
     * keeps it in the map; the constructor takes the value it has reached.
     */
    var next: int
    /** Keys in insertion order; `nodes[i]` is the node stored under `keys[i]`. */
    var keys: seq<K>
    var nodes: seq<Node<int, D>>
    /** The dictionary's lookup structure: key to position. */
    var index: map<K, nat>

    ghost predicate Valid()
      reads this
    {
      && |keys| == |nodes|
      && (forall k :: k in index ==> index[k] < |keys| && keys[index[k]] == k)
      && (forall i :: 0 <= i < |keys| ==> keys[i] in index && index[keys[i]] == i)
      && FreshIds(nodes, next)
    }

    constructor (start: int)
      ensures Valid() && next == start
      ensures keys == [] && nodes == [] && index == map[]
    {
      next := start;
      keys := [];
      nodes := [];
      index := map[];
    }

    /** `Models`, the dictionary's values: the positions of the interned nodes, in insertion order. */
    function Models(): seq<nat>
      reads this
    {
      Positions(|nodes|)
    }

    /**
     * The indexer `this[key]`: the node stored under `key`, or a new node with
     * the next id, stored under `key`; `blank` is the state of `new TNode()`.
     */
    method Get(key: K, blank: D) returns (i: nat)
      requires Valid()
      modifies this
      ensures Valid()
      ensures i < |nodes| && keys[i] == key
      ensures old(key in index) ==>
        && keys == old(keys) && nodes == old(nodes) && index == old(index)
        && next == old(next) && i == old(index[key])
      ensures old(key !in index) ==>
        && keys == old(keys) + [key]
        && nodes == old(nodes) + [Node(old(next), blank)]
        && index == old(index)[key := i]
        && next == old(next) + 1
        && i == old(|nodes|)
    {
      if key in index {
        i := index[key];
      } else {
        i := |nodes|;
        var node := Node(next, blank);
        next := next + 1;
        keys := keys + [key];
        nodes := nodes + [node];
        index := index[key := i];
        FreshIdsAppend(old(nodes), old(next), node);
      }
    }

    /** A field write on the node at position `i`: its id and its key stay. */
    method Update(i: nat, data: D)
      requires Valid() && i < |nodes|
      modifies this
      ensures Valid()
      ensures keys == old(keys) && index == old(index) && next == old(next)
      ensures nodes == old(nodes)[i := Node(old(nodes[i].id), data)]
    {
      nodes := nodes[i := Node(nodes[i].id, data)];
      FreshIdsUpdate(old(nodes), next, i, data);
    }
  }

  /** `Models` lists every interned node exactly once and nothing else. */
  lemma ModelsAreTheInterned<K, D>(m: ModelMap<K, D>, p: nat)
    ensures p in m.Models() <==> p < |m.nodes|
    ensures multiset(m.Models())[p] == if p < |m.nodes| then 1 else 0
  {
    PositionsCount(|m.nodes|, p);
  }

  lemma {:induction false} PositionsCount(n: nat, p: nat)
    ensures multiset(Positions(n))[p] == if p < n then 1 else 0
  {
    if n > 0 {
      PositionsCount(n - 1, p);
      assert Positions(n) == Positions(n - 1) + [n - 1];
    }
  }

  /** A miss appends a node carrying the counter's value, which then moves on. */
  lemma FreshIdsAppend<D>(nodes: seq<Node<int, D>>, bound: int, node: Node<int, D>)
    requires FreshIds(nodes, bound) && node.id == bound
    ensures FreshIds(nodes + [node], bound + 1)
  {
    var n' := nodes + [node];
    forall i | 0 <= i < |n'|
      ensures IdAt(n', i) < bound + 1
    {
      if i < |nodes| {
        assert IdAt(n', i) == IdAt(nodes, i);
      }
    }
    forall i, j | 0 <= i < j < |n'|
      ensures IdAt(n', i) < IdAt(n', j)
    {
      assert IdAt(n', i) == IdAt(nodes, i);
      if j < |nodes| {
        assert IdAt(n', j) == IdAt(nodes, j);
      }
    }
  }

  /** A field write keeps every id. */
  lemma FreshIdsUpdate<D>(nodes: seq<Node<int, D>>, bound: int, k: nat, data: D)
    requires FreshIds(nodes, bound) && k < |nodes|
    ensures FreshIds(nodes[k := Node(nodes[k].id, data)], bound)
  {
    var n' := nodes[k := Node(nodes[k].id, data)];
    forall i | 0 <= i < |n'|
      ensures IdAt(n', i) < bound
    {
      assert IdAt(n', i) == IdAt(nodes, i);
    }
    forall i, j | 0 <= i < j < |n'|
      ensures IdAt(n', i) < IdAt(n', j)
    {
      assert IdAt(n', i) == IdAt(nodes, i);
      assert IdAt(n', j) == IdAt(nodes, j);
    }
  }

  /** Strictly increasing ids are pairwise distinct: no two interned nodes of one kind share an id. */
  lemma FreshIdsAreDistinct<D>(nodes: seq<Node<int, D>>, bound: int, i: nat, j: nat)
    requires FreshIds(nodes, bound) && i < |nodes| && j < |nodes| && i != j
    ensures nodes[i].id != nodes[j].id
  {
    assert IdAt(nodes, i) != IdAt(nodes, j);
  }

  /** Appending a blank and then writing it is appending the written node. */
  lemma AppendThenWrite<T>(s: seq<T>, a: T, b: T)
    ensures (s + [a])[|s| := b] == s + [b]
  {
  }

  /** Writing back what is already stored changes nothing. */
  lemma WriteSame<T>(s: seq<T>, i: nat)
    requires i < |s|
    ensures s[i := s[i]] == s
  {
  }
}
