/** ArchitectureAnalyzer.Core.Graph: node identity and the graph store seen as an append-only log. */
module Graph {
  import opened Wrappers

  /** A node object: the `Id` of the `Node` base class and the fields of its concrete class. */
  datatype Node<I, D> = Node(id: I, data: D)

  /** What `Node.Equals` inspects of an object: its runtime class and, for nodes, its `Id`. */
  datatype NodeObject = NodeObject(runtimeType: string, id: int)

  /** `Node.Equals(object)`. */
  function NodeEquals(self: NodeObject, obj: Option<NodeObject>): (r: bool)
    ensures obj.None? ==> !r
    ensures obj.Some? && obj.value.runtimeType != self.runtimeType ==> !r
    ensures obj.Some? && obj.value.runtimeType == self.runtimeType ==> (r <==> obj.value.id == self.id)
  {
    if obj.None? then false
    else if self.runtimeType != obj.value.runtimeType then false
    else self.id == obj.value.id
  }

  const Int64Min: int := -0x8000_0000_0000_0000
  const Int64Max: int := 0x7FFF_FFFF_FFFF_FFFF

  /** `long.GetHashCode()`: the low 32 bits exclusive-or the high 32 bits, read as a signed int. */
  function Int64HashCode(v: int): (h: int)
    requires Int64Min <= v <= Int64Max
    ensures -0x8000_0000 <= h <= 0x7FFF_FFFF
  {
    var bits := if v < 0 then v + 0x1_0000_0000_0000_0000 else v;
    var low := (bits % 0x1_0000_0000) as bv32;
    var high := (bits / 0x1_0000_0000) as bv32;
    var x := (low ^ high) as int;
    if x >= 0x8000_0000 then x - 0x1_0000_0000 else x
  }

  /** `Node.GetHashCode()`: the hash of the Id alone. */
  function NodeHashCode(n: NodeObject): int
    requires Int64Min <= n.id <= Int64Max
  {
    Int64HashCode(n.id)
  }

  /** Equality is reflexive. */
  lemma NodeEqualsReflexive(a: NodeObject)
    ensures NodeEquals(a, Some(a))
  {
  }

  /** Equality is symmetric. */
  lemma NodeEqualsSymmetric(a: NodeObject, b: NodeObject)
    ensures NodeEquals(a, Some(b)) == NodeEquals(b, Some(a))
  {
  }

  /** Equality is transitive. */
  lemma NodeEqualsTransitive(a: NodeObject, b: NodeObject, c: NodeObject)
    requires NodeEquals(a, Some(b)) && NodeEquals(b, Some(c))
    ensures NodeEquals(a, Some(c))
  {
  }

  /** Equal nodes have equal hash codes. */
  lemma EqualNodesHashEqually(a: NodeObject, b: NodeObject)
    requires Int64Min <= a.id <= Int64Max && Int64Min <= b.id <= Int64Max
    requires NodeEquals(a, Some(b))
    ensures NodeHashCode(a) == NodeHashCode(b)
  {
  }

  /** One call made on a graph-store transaction (or, in the older scanner, on the database). */
  datatype Event<R> =
    | Cleared
    | NodeCreated(node: R)
    | RelationshipCreated(from: R, to: R, kind: string)

  /** `IGraphDatabaseTransaction` (and the older `IGraphDatabase`): the calls made on it, in order. */
  class Transaction<R> {
    var events: seq<Event<R>>

    constructor ()
      ensures events == []
    {
      events := [];
    }

    method Clear()
      modifies this
      ensures events == old(events) + [Cleared]
    {
      events := events + [Cleared];
    }

    method CreateNode(node: R)
      modifies this
      ensures events == old(events) + [NodeCreated(node)]
    {
      events := events + [NodeCreated(node)];
    }

    method CreateRelationship(from: R, to: R, kind: string)
      modifies this
      ensures events == old(events) + [RelationshipCreated(from, to, kind)]
    {
      events := events + [RelationshipCreated(from, to, kind)];
    }
  }
}
