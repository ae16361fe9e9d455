/** Edges, directions and the neighbour reads every graph operation is built on. */
module GraphTypes {
  import opened Prelude

  /** A relationship's type, sixteen bits of its edge's key. The known ones are 1 to 8. */
  type RelType = U16

  const RELATIONSHIP_TYPES: seq<RelType> := [1, 2, 3, 4, 5, 6, 7, 8]

  datatype Direction = Out | In | Both

  datatype Edge = Edge(
    from: Id, to: Id, rel: RelType,
    strength: real, createdAt: nat, updatedAt: nat, meta: map<string, string>)

  /** A walk both ways is a walk out and then a walk in. */
  function Each(d: Direction): seq<Direction> {
    if d.Both? then [Out, In] else [d]
  }

  /** The far endpoint of an edge read in one direction. */
  function Far(e: Edge, d: Direction): Id {
    if d.In? then e.from else e.to
  }

  predicate ValidType(rel: RelType) {
    rel in RELATIONSHIP_TYPES
  }

  predicate Validates(e: Edge) {
    e.from != ZERO_ID && e.to != ZERO_ID && e.from != e.to && ValidType(e.rel)
  }

  /** What an edge's key holds. The out-key is (from, type, to), the in-key (to, type,
      from); either addresses the same edge. */
  datatype Link = Link(from: Id, rel: RelType, to: Id)
}
