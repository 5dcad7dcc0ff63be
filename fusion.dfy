/**
 * Fusing one merge group into a single new vertex, step by step on the graph: a new
 * vertex is added, each member's properties and edges are copied onto it in turn
 * (edge ends that were fused already are looked up in the merge map), the merge map
 * records each member, and finally the members are dropped and the graph committed.
 */
module Fusion {
  import opened Options
  import opened ElementProperties
  import opened Graphs
  import opened FusionSpec
  import opened FusionTracking

  /**
   * Fuses the vertices of `group` into one new vertex labelled `lbl`, taking the members
   * in list order. The new vertex accumulates the members' properties; every edge
   * touching the group is re-created on it (an end inside the group becomes the new
   * vertex); the members, and with them their original edges, are dropped; and the merge
   * map records each member. An empty group changes nothing and yields no vertex.
   */
  method MergeVertices(g: Graph, group: seq<Id>, lbl: string, alreadyMerged: map<Id, Id>)
    returns (fused: Option<Id>, merged: map<Id, Id>, ghost fin: map<Id, CopyTag>)
    requires g.Valid() && Distinct(group) && forall x :: x in group ==> x in g.vertices
    requires Retired(alreadyMerged, g.vertices, g.nextId)
    modifies g
    ensures g.Valid() && Retired(merged, g.vertices, g.nextId)
    ensures group == [] ==> fused == None && merged == alreadyMerged && unchanged(g)
    ensures group != [] ==>
      var v, G := old(g.nextId), Members(group);
      && fused == Some(v) && v < g.nextId
      && g.vertices == WithoutVertices(old(g.vertices), G)[v := Vertex(lbl, FusedProps(old(g.vertices), group))]
      && g.edges == WithoutIncidentEdges(old(g.edges), G) + RedirectedCopies(old(g.edges), G, v, fin)
      && WithoutIncidentEdges(old(g.edges), G).Keys !! fin.Keys
      && Injective(fin) && fin.Values == SurvivorTags(old(g.edges), G)
      && |g.edges| == |old(g.edges)| + |InsideEdges(old(g.edges), G)| - |MemberLoops(old(g.edges), G)|
      && merged == alreadyMerged + MergedInto(group, v)
      && g.commits == old(g.commits) + 1
  {
    if group == [] {
      return None, alreadyMerged, map[];
    }
    ghost var V0, E0 := g.vertices, g.edges;
    var v := g.AddVertex(lbl);
    MergeStart(V0, E0, group, v);
    var ids;
    ghost var origin;
    ids, merged, origin := AbsorbAll(g, E0, V0, group, lbl, v, alreadyMerged);
    ghost var looped := g.edges;
    if ids != [] {
      g.DropVertices(Members(ids));
    }
    fin := FinalTags(origin, g.edges);
    FusionOutcome(E0, group, v, looped, origin, g.edges);
    FusedVertices(V0, group, lbl, v, alreadyMerged, g.vertices, g.nextId);
    g.Commit();
    fused := Some(v);
  }

  /**
   * The member loop: each member in turn is absorbed into `v` and recorded in the
   * merge map; `ids` collects the members for the drop that follows.
   */
  method AbsorbAll(g: Graph, ghost E0: map<Id, Edge>, ghost V0: map<Id, Vertex>, group: seq<Id>, ghost lbl: string, v: Id,
                   alreadyMerged: map<Id, Id>)
    returns (ids: seq<Id>, merged: map<Id, Id>, ghost origin: map<Id, Made>)
    requires g.Valid() && Distinct(group) && forall x :: x in group ==> x in V0
    requires Retired(alreadyMerged, V0, v) && v !in V0 && v < g.nextId
    requires forall e :: e in E0 ==> E0[e].src in V0 && E0[e].dst in V0
    requires g.vertices == V0[v := Vertex(lbl, map[])] && g.edges == E0
    requires Separate(E0, group, v) && Tracked(E0, group, v, E0, map[], 0)
    modifies g
    ensures g.Valid() && g.commits == old(g.commits) && v < g.nextId
    ensures ids == group && merged == alreadyMerged + MergedInto(group, v)
    ensures g.vertices == V0[v := Vertex(lbl, FusedProps(V0, group))]
    ensures Tracked(E0, group, v, g.edges, origin, 2 * |group|)
  {
    ids := [];
    merged := alreadyMerged;
    origin := map[];
    ghost var c := 0;
    var i := 0;
    assert group[..0] == [];
    while i < |group|
      invariant 0 <= i <= |group| && ids == group[..i]
      invariant g.Valid() && g.commits == old(g.commits) && v < g.nextId
      invariant g.vertices == V0[v := Vertex(lbl, FusedProps(V0, group[..i]))]
      invariant merged == alreadyMerged + MergedInto(group[..i], v)
      invariant c == 2 * i && Tracked(E0, group, v, g.edges, origin, c)
    {
      var orig := group[i];
      ids := ids + [orig];
      origin := AbsorbMember(g, E0, V0, group, i, lbl, v, merged, alreadyMerged, origin);
      MergedIntoStep(alreadyMerged, group, i, v);
      merged := merged[orig := v];
      c, i := 2 * i + 2, i + 1;
    }
    assert group[..i] == group;
  }

  /**
   * One turn of the member loop: member `i`'s properties are copied onto `v`, then its
   * edges are re-created on `v`.
   */
  method AbsorbMember(g: Graph, ghost E0: map<Id, Edge>, ghost V0: map<Id, Vertex>, group: seq<Id>, i: nat,
                      ghost lbl: string, v: Id, merged: map<Id, Id>, ghost alreadyMerged: map<Id, Id>,
                      ghost origin: map<Id, Made>)
    returns (ghost origin': map<Id, Made>)
    requires g.Valid() && Distinct(group) && i < |group| && forall x :: x in group ==> x in V0
    requires Retired(alreadyMerged, V0, v) && merged == alreadyMerged + MergedInto(group[..i], v)
    requires v !in V0 && g.vertices == V0[v := Vertex(lbl, FusedProps(V0, group[..i]))]
    requires forall e :: e in E0 ==> E0[e].src in V0 && E0[e].dst in V0
    requires Separate(E0, group, v) && Tracked(E0, group, v, g.edges, origin, 2 * i)
    modifies g
    ensures g.Valid() && Tracked(E0, group, v, g.edges, origin', 2 * i + 2)
    ensures g.vertices == V0[v := Vertex(lbl, FusedProps(V0, group[..i + 1]))]
    ensures g.nextId >= old(g.nextId) && g.commits == old(g.commits)
  {
    ghost var before := g.vertices;
    g.CopyPropertiesToVertex(g.vertices[group[i]].props, v);
    AbsorbedProps(V0, group, i, lbl, v, before, g.vertices);
    origin' := RedirectMemberEdges(g, E0, V0, group, i, v, merged, alreadyMerged, origin);
  }

  /**
   * The two edge passes for member `i` of `group`: its in-edges are re-created as edges
   * into `v`, then its out-edges, except the ones the in-pass just made, as edges out of
   * `v`. The merge map at that point holds the first `i` members.
   */
  method RedirectMemberEdges(g: Graph, ghost E0: map<Id, Edge>, ghost V0: map<Id, Vertex>, group: seq<Id>, i: nat, v: Id,
                             merged: map<Id, Id>, ghost alreadyMerged: map<Id, Id>, ghost origin: map<Id, Made>)
    returns (ghost origin': map<Id, Made>)
    requires g.Valid() && Distinct(group) && i < |group| && forall x :: x in group ==> x in V0
    requires Retired(alreadyMerged, V0, v) && merged == alreadyMerged + MergedInto(group[..i], v)
    requires v !in V0 && v in g.vertices && g.vertices.Keys == V0.Keys + {v}
    requires forall e :: e in E0 ==> E0[e].src in V0 && E0[e].dst in V0
    requires Separate(E0, group, v) && Tracked(E0, group, v, g.edges, origin, 2 * i)
    modifies g
    ensures g.Valid() && Tracked(E0, group, v, g.edges, origin', 2 * i + 2)
    ensures g.vertices == old(g.vertices) && g.nextId >= old(g.nextId) && g.commits == old(g.commits)
  {
    var orig := group[i];
    ResolvesNow(alreadyMerged, V0, E0, group, i, v, g.vertices);

    ghost var before := g.edges;
    var newEdges, fromIn := CopyInEdges(g, orig, v, merged);
    InStep(E0, group, v, i, before, origin, merged, fromIn, g.edges);
    InStepSkip(E0, group, v, i, before, origin, merged, fromIn, g.edges);
    origin' := origin + InOrigins(E0, origin, fromIn);

    ghost var middle := g.edges;
    var allNew, fromOut := CopyOutEdges(g, orig, v, merged, newEdges);
    OutStep(E0, group, v, i, middle, origin', Members(newEdges), merged, fromOut, g.edges);
    origin' := origin' + OutOrigins(E0, origin', fromOut);
  }

  /**
   * The in-edge pass for member `orig`: every edge into `orig` at the start of the pass
   * is copied, with its properties, as an edge from the (resolved) tail to `v`.
   * `from` records which found edge each new edge copies.
   */
  method CopyInEdges(g: Graph, orig: Id, v: Id, alreadyMerged: map<Id, Id>) returns (newEdges: seq<Id>, ghost from: map<Id, Id>)
    requires g.Valid() && orig in g.vertices && v in g.vertices
    requires forall x {:trigger Redirect(alreadyMerged, x)} :: x in g.vertices ==> Redirect(alreadyMerged, x) in g.vertices
    modifies g
    ensures g.Valid()
    ensures g.vertices == old(g.vertices) && g.commits == old(g.commits) && old(g.nextId) <= g.nextId
    ensures from.Keys == Members(newEdges) && from.Keys !! old(g.edges).Keys
    ensures Injective(from) && from.Values == InEdgesOf(old(g.edges), orig)
    ensures g.edges == old(g.edges) + InCopies(old(g.edges), from, alreadyMerged, v)
  {
    ghost var E := g.edges;
    ghost var start := g.nextId;
    newEdges, from := [], map[];
    var todo := InEdgesOf(g.edges, orig);
    PassStart(E, start, todo, {}, g.edges, g.nextId, alreadyMerged, v, true);
    while todo != {}
      invariant g.Valid() && g.vertices == old(g.vertices) && g.commits == old(g.commits)
      invariant PassInv(E, start, InEdgesOf(E, orig), todo, {}, newEdges, from, g.edges, g.nextId, alreadyMerged, v, true)
      decreases |todo|
    {
      var eOrig :| eOrig in todo;
      PassFresh(E, start, InEdgesOf(E, orig), todo, {}, newEdges, from, g.edges, g.nextId, alreadyMerged, v, true, eOrig);
      if eOrig !in newEdges {
        PassCopied(E, start, InEdgesOf(E, orig), todo, {}, newEdges, from, g.edges, g.nextId, alreadyMerged, v, true, eOrig);
        var e := CopyEdge(g, eOrig, Redirect(alreadyMerged, g.edges[eOrig].src), v);
        newEdges, from := newEdges + [e], from[e := eOrig];
      }
      todo := todo - {eOrig};
    }
    PassDone(E, start, InEdgesOf(E, orig), {}, newEdges, from, g.edges, g.nextId, alreadyMerged, v, true);
  }

  /**
   * The out-edge pass for member `orig`: every edge out of `orig` at the start of the
   * pass, except those listed in `newEdges`, is copied, with its properties, as an edge
   * from `v` to the (resolved) head. The new edges are appended to `newEdges`.
   */
  method CopyOutEdges(g: Graph, orig: Id, v: Id, alreadyMerged: map<Id, Id>, newEdges: seq<Id>)
    returns (allNew: seq<Id>, ghost from: map<Id, Id>)
    requires g.Valid() && orig in g.vertices && v in g.vertices
    requires forall x {:trigger Redirect(alreadyMerged, x)} :: x in g.vertices ==> Redirect(alreadyMerged, x) in g.vertices
    modifies g
    ensures g.Valid()
    ensures g.vertices == old(g.vertices) && g.commits == old(g.commits) && old(g.nextId) <= g.nextId
    ensures Members(allNew) == Members(newEdges) + from.Keys && from.Keys !! old(g.edges).Keys
    ensures Injective(from) && from.Values == OutEdgesOf(old(g.edges), orig) - Members(newEdges)
    ensures g.edges == old(g.edges) + OutCopies(old(g.edges), from, alreadyMerged, v)
  {
    ghost var E := g.edges;
    ghost var start := g.nextId;
    ghost var skip := Members(newEdges);
    ghost var added: seq<Id> := [];
    allNew, from := newEdges, map[];
    var todo := OutEdgesOf(g.edges, orig);
    PassStart(E, start, todo, skip, g.edges, g.nextId, alreadyMerged, v, false);
    while todo != {}
      invariant g.Valid() && g.vertices == old(g.vertices) && g.commits == old(g.commits)
      invariant forall x :: x in allNew <==> x in skip || x in from
      invariant PassInv(E, start, OutEdgesOf(E, orig), todo, skip, added, from, g.edges, g.nextId, alreadyMerged, v, false)
      decreases |todo|
    {
      var eOrig :| eOrig in todo;
      PassFresh(E, start, OutEdgesOf(E, orig), todo, skip, added, from, g.edges, g.nextId, alreadyMerged, v, false, eOrig);
      if eOrig !in allNew {
        PassCopied(E, start, OutEdgesOf(E, orig), todo, skip, added, from, g.edges, g.nextId, alreadyMerged, v, false, eOrig);
        var e := CopyEdge(g, eOrig, v, Redirect(alreadyMerged, g.edges[eOrig].dst));
        allNew, added, from := allNew + [e], added + [e], from[e := eOrig];
      } else {
        PassSkipped(E, start, OutEdgesOf(E, orig), todo, skip, added, from, g.edges, g.nextId, alreadyMerged, v, false, eOrig);
      }
      todo := todo - {eOrig};
    }
    PassDone(E, start, OutEdgesOf(E, orig), skip, added, from, g.edges, g.nextId, alreadyMerged, v, false);
  }

  /** Adds an edge from `src` to `dst` with the label of edge `eOrig`, and copies its properties onto it. */
  method CopyEdge(g: Graph, eOrig: Id, src: Id, dst: Id) returns (e: Id)
    requires g.Valid() && eOrig in g.edges && src in g.vertices && dst in g.vertices
    modifies g
    ensures g.Valid()
    ensures e == old(g.nextId) && g.nextId == e + 1
    ensures g.edges == old(g.edges)[e := Edge(src, old(g.edges)[eOrig].lbl, dst, old(g.edges)[eOrig].props)]
    ensures g.vertices == old(g.vertices) && g.commits == old(g.commits)
  {
    var found := g.edges[eOrig];
    CopyOntoEmpty(found.props);
    e := g.AddEdge(src, found.lbl, dst);
    g.CopyPropertiesToEdge(found.props, e);
  }

  /** The edge a pass makes from the edge `e` it found. */
  function PassCopy(inPass: bool, e: Edge, M: map<Id, Id>, v: Id): Edge {
    if inPass then InCopy(e, M, v) else OutCopy(e, M, v)
  }

  /**
   * Part way through a pass over the edges `found` (present before the pass, when the
   * next identity was `start`): the edges still `todo` are untouched, and each edge the
   * pass has made so far (`added`, with `from` naming the found edge it copies) is the
   * copy of a found edge outside `skip`, every such edge copied once.
   */
  ghost predicate PassInv(E: map<Id, Edge>, start: Id, found: set<Id>, todo: set<Id>, skip: set<Id>, added: seq<Id>,
                          from: map<Id, Id>, edges: map<Id, Edge>, nextId: Id, M: map<Id, Id>, v: Id, inPass: bool) {
    && (forall n :: n in E ==> n < start) && start <= nextId
    && found <= E.Keys && todo <= found
    && from.Keys == Members(added)
    && (forall n :: n in from ==> start <= n < nextId)
    && Injective(from) && from.Values == (found - todo) - skip
    && edges.Keys == E.Keys + from.Keys && (forall n :: n in E ==> edges[n] == E[n])
    && (forall n :: n in from ==> from[n] in E && edges[n] == PassCopy(inPass, E[from[n]], M, v))
  }

  lemma PassStart(E: map<Id, Edge>, start: Id, found: set<Id>, skip: set<Id>, edges: map<Id, Edge>, nextId: Id,
                  M: map<Id, Id>, v: Id, inPass: bool)
    requires edges == E && start == nextId && (forall n :: n in E ==> n < nextId) && found <= E.Keys
    ensures PassInv(E, start, found, found, skip, [], map[], edges, nextId, M, v, inPass)
  {
  }

  /** An edge still to do is an original edge, not one the pass made. */
  lemma PassFresh(E: map<Id, Edge>, start: Id, found: set<Id>, todo: set<Id>, skip: set<Id>, added: seq<Id>,
                  from: map<Id, Id>, edges: map<Id, Edge>, nextId: Id, M: map<Id, Id>, v: Id, inPass: bool, x: Id)
    requires PassInv(E, start, found, todo, skip, added, from, edges, nextId, M, v, inPass) && x in todo
    ensures x in E && x in edges && edges[x] == E[x] && x !in added
  {
    assert x !in Members(added);
  }

  lemma PassCopied(E: map<Id, Edge>, start: Id, found: set<Id>, todo: set<Id>, skip: set<Id>, added: seq<Id>,
                   from: map<Id, Id>, edges: map<Id, Edge>, nextId: Id, M: map<Id, Id>, v: Id, inPass: bool, x: Id)
    requires PassInv(E, start, found, todo, skip, added, from, edges, nextId, M, v, inPass)
    requires x in todo && x !in skip
    ensures PassInv(E, start, found, todo - {x}, skip, added + [nextId], from[nextId := x],
                    edges[nextId := PassCopy(inPass, E[x], M, v)], nextId + 1, M, v, inPass)
  {
    assert x in E;
    AddToInjective(from, nextId, x);
    assert Members(added + [nextId]) == Members(added) + {nextId};
  }

  lemma PassSkipped(E: map<Id, Edge>, start: Id, found: set<Id>, todo: set<Id>, skip: set<Id>, added: seq<Id>,
                    from: map<Id, Id>, edges: map<Id, Edge>, nextId: Id, M: map<Id, Id>, v: Id, inPass: bool, x: Id)
    requires PassInv(E, start, found, todo, skip, added, from, edges, nextId, M, v, inPass)
    requires x in todo && x in skip
    ensures PassInv(E, start, found, todo - {x}, skip, added, from, edges, nextId, M, v, inPass)
  {
  }

  lemma PassDone(E: map<Id, Edge>, start: Id, found: set<Id>, skip: set<Id>, added: seq<Id>,
                 from: map<Id, Id>, edges: map<Id, Edge>, nextId: Id, M: map<Id, Id>, v: Id, inPass: bool)
    requires PassInv(E, start, found, {}, skip, added, from, edges, nextId, M, v, inPass)
    ensures from.Keys == Members(added) && from.Keys !! E.Keys && start <= nextId
    ensures Injective(from) && from.Values == found - skip
    ensures edges == E + (if inPass then InCopies(E, from, M, v) else OutCopies(E, from, M, v))
  {
    assert from.Keys !! E.Keys by {
      forall n | n in from ensures n !in E {
        assert start <= n;
      }
    }
  }

  lemma AddToInjective(from: map<Id, Id>, e: Id, x: Id)
    requires e !in from && x !in from.Values && Injective(from)
    ensures from[e := x].Values == from.Values + {x} && Injective(from[e := x])
  {
    assert from[e := x].Values == from.Values + {x} by {
      forall y | y in from.Values ensures y in from[e := x].Values {
        var n :| n in from && from[n] == y;
        assert from[e := x][n] == y;
      }
      assert from[e := x][e] == x;
    }
  }


  /* ---------- the facts MergeVertices relies on between the passes ---------- */

  /** The new vertex is not a member, not in the graph before, and not an end of any edge. */
  lemma MergeStart(V0: map<Id, Vertex>, E0: map<Id, Edge>, group: seq<Id>, v: Id)
    requires forall x :: x in V0 ==> x < v
    requires forall e :: e in E0 ==> E0[e].src in V0 && E0[e].dst in V0
    requires forall x :: x in group ==> x in V0
    ensures Separate(E0, group, v) && v !in V0
    ensures Tracked(E0, group, v, E0, map[], 0)
  {
    TrackedInitially(E0, group, v);
  }

  /** The first `i` members, in list order, are exactly the members at positions below `i`. */
  lemma SliceIndex(group: seq<Id>, i: nat, x: Id)
    requires Distinct(group) && i <= |group|
    ensures x in group[..i] <==> x in group && IndexOf(group, x) < i
  {
    if x in group[..i] {
      var j :| 0 <= j < i && group[j] == x;
      IndexOfAt(group, j);
    }
    if x in group && IndexOf(group, x) < i {
      assert group[..i][IndexOf(group, x)] == x;
    }
  }

  /** Before member `i`'s passes, the merge map sends the first `i` members to `v` and leaves every other live vertex alone. */
  lemma ResolvesNow(alreadyMerged: map<Id, Id>, V0: map<Id, Vertex>, E0: map<Id, Edge>, group: seq<Id>, i: nat, v: Id,
                    vertices: map<Id, Vertex>)
    requires Retired(alreadyMerged, V0, v) && v !in V0
    requires forall e :: e in E0 ==> E0[e].src in V0 && E0[e].dst in V0
    requires Distinct(group) && i <= |group| && forall x :: x in group ==> x in V0
    requires vertices.Keys == V0.Keys + {v}
    ensures Resolves(alreadyMerged + MergedInto(group[..i], v), E0, group, i, v)
    ensures forall x {:trigger Redirect(alreadyMerged + MergedInto(group[..i], v), x)} :: x in vertices ==>
      Redirect(alreadyMerged + MergedInto(group[..i], v), x) in vertices
  {
    var M := alreadyMerged + MergedInto(group[..i], v);
    forall x | x in V0 ensures Redirect(M, x) == ResolvedAt(group, i, v, x) {
      SliceIndex(group, i, x);
    }
    assert v !in group;
  }

  /** What the drop leaves of the vertices, and the merge map after it. */
  lemma FusedVertices(V0: map<Id, Vertex>, group: seq<Id>, lbl: string, v: Id, alreadyMerged: map<Id, Id>,
                      vertices: map<Id, Vertex>, nextId: Id)
    requires Retired(alreadyMerged, V0, v) && v < nextId && (forall x :: x in V0 ==> x < v)
    requires forall x :: x in group ==> x in V0
    requires vertices == WithoutVertices(V0[v := Vertex(lbl, FusedProps(V0, group))], Members(group))
    ensures vertices == WithoutVertices(V0, Members(group))[v := Vertex(lbl, FusedProps(V0, group))]
    ensures Retired(alreadyMerged + MergedInto(group, v), vertices, nextId)
  {
    DropFused(V0, Members(group), v, Vertex(lbl, FusedProps(V0, group)));
    RetiredAfter(alreadyMerged, V0, group, v, vertices, nextId);
  }

  /** What the drop leaves of the edges once all members' passes are done. */
  lemma FusionOutcome(E0: map<Id, Edge>, group: seq<Id>, v: Id, looped: map<Id, Edge>, origin: map<Id, Made>,
                      dropped: map<Id, Edge>)
    requires Distinct(group) && Separate(E0, group, v)
    requires Tracked(E0, group, v, looped, origin, 2 * |group|)
    requires dropped == WithoutIncidentEdges(looped, Members(group))
    ensures var G, fin := Members(group), FinalTags(origin, dropped);
      && dropped == WithoutIncidentEdges(E0, G) + RedirectedCopies(E0, G, v, fin)
      && WithoutIncidentEdges(E0, G).Keys !! fin.Keys
      && Injective(fin) && fin.Values == SurvivorTags(E0, G)
      && |dropped| == |E0| + |InsideEdges(E0, G)| - |MemberLoops(E0, G)|
  {
    FinalStep(E0, group, v, looped, origin);
    SurvivorCount(E0, Members(group), v, dropped, FinalTags(origin, dropped));
  }

  lemma SurvivorCount(E0: map<Id, Edge>, G: set<Id>, v: Id, dropped: map<Id, Edge>, fin: map<Id, CopyTag>)
    requires dropped == WithoutIncidentEdges(E0, G) + RedirectedCopies(E0, G, v, fin)
    requires WithoutIncidentEdges(E0, G).Keys !! fin.Keys
    requires Injective(fin) && fin.Values == SurvivorTags(E0, G)
    ensures |dropped| == |E0| + |InsideEdges(E0, G)| - |MemberLoops(E0, G)|
  {
    RedirectedKeys(E0, G, v, fin);
    FusionEdgeCount(E0, G, dropped, fin);
  }

  /** Every survivor tag names an original edge, so each one yields an edge. */
  lemma RedirectedKeys(E0: map<Id, Edge>, G: set<Id>, v: Id, fin: map<Id, CopyTag>)
    requires fin.Values == SurvivorTags(E0, G)
    ensures RedirectedCopies(E0, G, v, fin).Keys == fin.Keys
  {
    forall n | n in fin ensures fin[n].edge in E0 {
      assert fin[n] in fin.Values;
    }
  }

  /** Copying member `i`'s properties onto the fused vertex extends its properties to the first `i + 1` members. */
  lemma AbsorbedProps(V0: map<Id, Vertex>, group: seq<Id>, i: nat, lbl: string, v: Id,
                      before: map<Id, Vertex>, after: map<Id, Vertex>)
    requires i < |group| && group[i] in V0 && v !in V0
    requires before == V0[v := Vertex(lbl, FusedProps(V0, group[..i]))]
    requires after == before[v := Vertex(before[v].lbl, CopyProperties(before[group[i]].props, before[v].props))]
    ensures after == V0[v := Vertex(lbl, FusedProps(V0, group[..i + 1]))]
  {
    assert group[..i + 1][..i] == group[..i];
  }

  lemma MergedIntoStep(alreadyMerged: map<Id, Id>, group: seq<Id>, i: nat, v: Id)
    requires i < |group|
    ensures (alreadyMerged + MergedInto(group[..i], v))[group[i] := v] == alreadyMerged + MergedInto(group[..i + 1], v)
    ensures group[..i + 1] == group[..i] + [group[i]]
  {
    assert group[..i + 1] == group[..i] + [group[i]];
  }

  lemma DropFused(V0: map<Id, Vertex>, G: set<Id>, v: Id, fusedVertex: Vertex)
    requires v !in G
    ensures WithoutVertices(V0[v := fusedVertex], G) == WithoutVertices(V0, G)[v := fusedVertex]
  {
  }

  /** After the drop, the merge map still holds only identities that have left the graph. */
  lemma RetiredAfter(alreadyMerged: map<Id, Id>, V0: map<Id, Vertex>, group: seq<Id>, v: Id,
                     vertices: map<Id, Vertex>, nextId: Id)
    requires Retired(alreadyMerged, V0, v) && v < nextId
    requires forall x :: x in group ==> x in V0 && x < v
    requires vertices.Keys == WithoutVertices(V0, Members(group)).Keys + {v}
    ensures Retired(alreadyMerged + MergedInto(group, v), vertices, nextId)
  {
  }
}
