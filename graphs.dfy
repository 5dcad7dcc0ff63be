/**
 * The property graph the merge engine works on, reduced to what the engine uses:
 * vertices and edges kept in two maps keyed by identity, fresh identities for new
 * elements, property copying, dropping vertices together with their edges, and a
 * commit counter.
 */
module Graphs {
  import opened ElementProperties

  /** Element identities; the store hands out a fresh one for each new element and never reuses one. */
  type Id = nat

  /** A vertex: its label and its properties. */
  datatype Vertex = Vertex(lbl: string, props: Props)

  /** An edge from `src` to `dst`, with its label and its properties. */
  datatype Edge = Edge(src: Id, lbl: string, dst: Id, props: Props)

  /** The edges whose head is `x` (the `inE()` step). */
  function InEdgesOf(edges: map<Id, Edge>, x: Id): set<Id> {
    set e | e in edges && edges[e].dst == x
  }

  /** The edges whose tail is `x` (the `outE()` step). */
  function OutEdgesOf(edges: map<Id, Edge>, x: Id): set<Id> {
    set e | e in edges && edges[e].src == x
  }

  /** The graph left after removing the vertices `gone` and every edge that touches one of them. */
  function WithoutVertices(vertices: map<Id, Vertex>, gone: set<Id>): map<Id, Vertex> {
    map x | x in vertices && x !in gone :: vertices[x]
  }

  function WithoutIncidentEdges(edges: map<Id, Edge>, gone: set<Id>): map<Id, Edge> {
    map e | e in edges && edges[e].src !in gone && edges[e].dst !in gone :: edges[e]
  }

  class Graph {
    var vertices: map<Id, Vertex>
    var edges: map<Id, Edge>
    /** The identity the next new element receives. */
    var nextId: Id
    /** How many times the graph has been committed. */
    ghost var commits: nat

    /**
     * Every identity in use was handed out already, every edge joins two vertices
     * of the graph, and every property list is non-empty and free of repeats.
     */
    ghost predicate Valid()
      reads this
    {
      && (forall x :: x in vertices ==> x < nextId && WellFormed(vertices[x].props))
      && (forall e :: e in edges ==> e < nextId && WellFormed(edges[e].props))
      && (forall e :: e in edges ==> edges[e].src in vertices && edges[e].dst in vertices)
    }

    constructor ()
      ensures Valid()
      ensures vertices == map[] && edges == map[] && nextId == 0 && commits == 0
    {
      vertices, edges, nextId := map[], map[], 0;
      commits := 0;
    }

    /** `graph.addVertex(label)`: a new vertex with a fresh identity and no properties. */
    method AddVertex(lbl: string) returns (id: Id)
      requires Valid()
      modifies this
      ensures Valid()
      ensures id == old(nextId) && nextId == id + 1
      ensures vertices == old(vertices)[id := Vertex(lbl, map[])]
      ensures edges == old(edges) && commits == old(commits)
    {
      id := nextId;
      vertices := vertices[id := Vertex(lbl, map[])];
      nextId := nextId + 1;
    }

    /** `src.addEdge(label, dst)`: a new edge with a fresh identity and no properties. */
    method AddEdge(src: Id, lbl: string, dst: Id) returns (id: Id)
      requires Valid() && src in vertices && dst in vertices
      modifies this
      ensures Valid()
      ensures id == old(nextId) && nextId == id + 1
      ensures edges == old(edges)[id := Edge(src, lbl, dst, map[])]
      ensures vertices == old(vertices) && commits == old(commits)
    {
      id := nextId;
      edges := edges[id := Edge(src, lbl, dst, map[])];
      nextId := nextId + 1;
    }

    /** Copies the properties `from` onto vertex `x`, accumulating values per key. */
    method CopyPropertiesToVertex(from: Props, x: Id)
      requires Valid() && x in vertices && WellFormed(from)
      modifies this
      ensures Valid()
      ensures vertices == old(vertices)[x := Vertex(old(vertices)[x].lbl, CopyProperties(from, old(vertices)[x].props))]
      ensures edges == old(edges) && nextId == old(nextId) && commits == old(commits)
    {
      CopyWellFormed(from, vertices[x].props);
      vertices := vertices[x := Vertex(vertices[x].lbl, CopyProperties(from, vertices[x].props))];
    }

    /** Copies the properties `from` onto edge `e`, accumulating values per key. */
    method CopyPropertiesToEdge(from: Props, e: Id)
      requires Valid() && e in edges && WellFormed(from)
      modifies this
      ensures Valid()
      ensures edges == old(edges)[e := old(edges)[e].(props := CopyProperties(from, old(edges)[e].props))]
      ensures vertices == old(vertices) && nextId == old(nextId) && commits == old(commits)
    {
      CopyWellFormed(from, edges[e].props);
      edges := edges[e := edges[e].(props := CopyProperties(from, edges[e].props))];
    }

    /** `V(ids).drop()`: removes the vertices `gone` and, with them, every edge touching one of them. */
    method DropVertices(gone: set<Id>)
      requires Valid()
      modifies this
      ensures Valid()
      ensures vertices == WithoutVertices(old(vertices), gone)
      ensures edges == WithoutIncidentEdges(old(edges), gone)
      ensures nextId == old(nextId) && commits == old(commits)
    {
      vertices := WithoutVertices(vertices, gone);
      edges := WithoutIncidentEdges(edges, gone);
    }

    /** Commits the pending changes; only the number of commits is modelled. */
    method Commit()
      modifies this
      ensures commits == old(commits) + 1
      ensures vertices == old(vertices) && edges == old(edges) && nextId == old(nextId)
    {
      commits := commits + 1;
    }
  }
}
