/** A vertex of the HNSW graph: per-level edge sets and the deleted flag. */
module HnswVertices {

  class Vertex<V, M> {
    const id: nat
    const vector: V
    const metadata: M
    const level: nat
    var deleted: bool
    var edges: seq<map<Vertex<V, M>, real>>

    constructor (id: nat, vector: V, metadata: M, level: nat)
      ensures this.id == id && this.vector == vector && this.metadata == metadata && this.level == level
      ensures !deleted && edges == seq(level + 1, _ => map[])
    {
      this.id := id;
      this.vector := vector;
      this.metadata := metadata;
      this.level := level;
      deleted := false;
      edges := seq(level + 1, _ => map[]);
    }

    method SetDeleted()
      modifies this`deleted
      ensures deleted
    {
      deleted := true;
    }

    function EdgesCount(l: nat): nat
      requires l < |edges|
      reads this
    {
      |edges[l]|
    }

    method AddEdge(l: nat, edge: Vertex<V, M>, distance: real)
      requires l < |edges|
      modifies this`edges
      ensures edges == old(edges)[l := old(edges)[l][edge := distance]]
    {
      edges := edges[l := edges[l][edge := distance]];
    }

    method RemoveEdge(l: nat, edge: Vertex<V, M>)
      requires l < |edges|
      modifies this`edges
      ensures edges == old(edges)[l := old(edges)[l] - {edge}]
    {
      edges := edges[l := edges[l] - {edge}];
    }

    method SetEdges(l: nat, es: map<Vertex<V, M>, real>)
      requires l < |edges|
      modifies this`edges
      ensures edges == old(edges)[l := es]
    {
      edges := edges[l := es];
    }
  }
}
