/**
 * What fusing one merge group does, stated on values: the properties the fused
 * vertex accumulates, how an edge touching the group is re-created, and which
 * re-created edges survive the final drop of the members.
 */
module FusionSpec {
  import opened ElementProperties
  import opened Graphs

  predicate Distinct(s: seq<Id>) {
    forall i, j :: 0 <= i < j < |s| ==> s[i] != s[j]
  }

  /** The members of a group, as a set. */
  function Members(s: seq<Id>): set<Id> {
    set x | x in s
  }

  /** The merge-map entries recording that each member was fused into `v`. */
  function MergedInto(members: seq<Id>, v: Id): map<Id, Id> {
    map x | x in members :: v
  }

  ghost predicate Injective<K, V>(m: map<K, V>) {
    forall a, b :: a in m && b in m && a != b ==> m[a] != m[b]
  }

  /** Endpoint resolution through the merge map: `alreadyMerged.getOrDefault(x, x)`. */
  function Redirect(mergeMap: map<Id, Id>, x: Id): Id {
    if x in mergeMap then mergeMap[x] else x
  }

  /**
   * The merge map only holds identities that have left the graph: fused members are
   * dropped and identities are never handed out twice.
   */
  ghost predicate Retired(mergeMap: map<Id, Id>, vertices: map<Id, Vertex>, nextId: Id) {
    forall x :: x in mergeMap ==> x !in vertices && x < nextId
  }

  /** So the lookup of a vertex that is still in the graph always falls back to the vertex itself. */
  lemma RedirectLive(mergeMap: map<Id, Id>, vertices: map<Id, Vertex>, nextId: Id, x: Id)
    requires Retired(mergeMap, vertices, nextId) && x in vertices
    ensures Redirect(mergeMap, x) == x
  {
  }

  /** The properties of vertex `x` (none when `x` is not a vertex). */
  function PropsOf(V: map<Id, Vertex>, x: Id): Props {
    if x in V then V[x].props else map[]
  }

  /** A member holds value `x` for `key`. */
  predicate Holds(V: map<Id, Vertex>, member: Id, key: string, x: Value) {
    key in PropsOf(V, member) && x in PropsOf(V, member)[key]
  }

  /** The properties of the fused vertex: each member's properties copied on, in member order. */
  function FusedProps(V: map<Id, Vertex>, members: seq<Id>): Props
    decreases |members|
  {
    if members == [] then map[]
    else CopyProperties(PropsOf(V, members[|members| - 1]), FusedProps(V, members[..|members| - 1]))
  }

  /** Fusion loses no value: whatever a member holds for a key, the fused vertex holds too. */
  lemma {:induction false} FusedKeepsValues(V: map<Id, Vertex>, members: seq<Id>, i: nat, key: string, x: Value)
    requires i < |members| && Holds(V, members[i], key, x)
    ensures key in FusedProps(V, members) && x in FusedProps(V, members)[key]
    decreases |members|
  {
    var last := |members| - 1;
    var prefix := members[..last];
    if i < last {
      assert prefix[i] == members[i];
      FusedKeepsValues(V, prefix, i, key, x);
    }
    FusedKeepsStep(V, members, key, x);
  }

  lemma FusedKeepsStep(V: map<Id, Vertex>, members: seq<Id>, key: string, x: Value)
    requires members != []
    requires Holds(V, members[|members| - 1], key, x)
      || (key in FusedProps(V, members[..|members| - 1]) && x in FusedProps(V, members[..|members| - 1])[key])
    ensures key in FusedProps(V, members) && x in FusedProps(V, members)[key]
  {
    CopyKeepsValue(PropsOf(V, members[|members| - 1]), FusedProps(V, members[..|members| - 1]), key, x);
  }

  /** Fusion invents no value: whatever the fused vertex holds for a key, some member held. */
  lemma {:induction false} FusedOnlyMemberValues(V: map<Id, Vertex>, members: seq<Id>, key: string, x: Value)
    requires key in FusedProps(V, members) && x in FusedProps(V, members)[key]
    ensures exists i :: 0 <= i < |members| && Holds(V, members[i], key, x)
    decreases |members|
  {
    var last := |members| - 1;
    var prefix := members[..last];
    CopyHoldsExactly(PropsOf(V, members[last]), FusedProps(V, prefix), key, x);
    if !Holds(V, members[last], key, x) {
      FusedOnlyMemberValues(V, prefix, key, x);
      var i :| 0 <= i < |prefix| && Holds(V, prefix[i], key, x);
      assert prefix[i] == members[i];
    }
  }

  /**
   * Values accumulate in member order: what the first j members contributed stays,
   * unchanged, in front of what later members add.
   */
  lemma {:induction false} FusedPrefix(V: map<Id, Vertex>, members: seq<Id>, j: nat, key: string)
    requires j <= |members| && key in FusedProps(V, members[..j])
    ensures key in FusedProps(V, members)
    ensures |FusedProps(V, members[..j])[key]| <= |FusedProps(V, members)[key]|
    ensures FusedProps(V, members)[key][..|FusedProps(V, members[..j])[key]|] == FusedProps(V, members[..j])[key]
    decreases |members| - j
  {
    if j == |members| {
      assert members[..j] == members;
    } else {
      var prefix := members[..|members| - 1];
      assert prefix[..j] == members[..j];
      FusedPrefix(V, prefix, j, key);
      FusedStepKeeps(V, members, key);
      var early, before, after := FusedProps(V, members[..j])[key], FusedProps(V, prefix)[key], FusedProps(V, members)[key];
      PrefixOfPrefix(early, before, after);
    }
  }

  /** One more member keeps, in front, what the earlier members contributed. */
  lemma FusedStepKeeps(V: map<Id, Vertex>, members: seq<Id>, key: string)
    requires members != [] && key in FusedProps(V, members[..|members| - 1])
    ensures key in FusedProps(V, members)
    ensures |FusedProps(V, members[..|members| - 1])[key]| <= |FusedProps(V, members)[key]|
    ensures FusedProps(V, members)[key][..|FusedProps(V, members[..|members| - 1])[key]|]
         == FusedProps(V, members[..|members| - 1])[key]
  {
    CopyKeepsPrefix(PropsOf(V, members[|members| - 1]), FusedProps(V, members[..|members| - 1]), key);
  }

  lemma PrefixOfPrefix(a: seq<Value>, b: seq<Value>, c: seq<Value>)
    requires |a| <= |b| && b[..|a|] == a
    requires |b| <= |c| && c[..|b|] == b
    ensures |a| <= |c| && c[..|a|] == a
  {
    assert c[..|a|] == c[..|b|][..|a|];
  }

  /** The fused properties depend only on the members' own properties. */
  lemma {:induction false} FusedPropsSame(V: map<Id, Vertex>, W: map<Id, Vertex>, members: seq<Id>)
    requires forall x :: x in members ==> PropsOf(V, x) == PropsOf(W, x)
    ensures FusedProps(V, members) == FusedProps(W, members)
    decreases |members|
  {
    if members != [] {
      var prefix := members[..|members| - 1];
      forall x | x in prefix ensures PropsOf(V, x) == PropsOf(W, x) {
        assert x in members;
      }
      FusedPropsSame(V, W, prefix);
      assert members[|members| - 1] in members;
    }
  }

  /** The fused properties are well formed when the members' are. */
  lemma {:induction false} FusedWellFormed(V: map<Id, Vertex>, members: seq<Id>)
    requires forall y :: y in V ==> WellFormed(V[y].props)
    ensures WellFormed(FusedProps(V, members))
    decreases |members|
  {
    if members != [] {
      FusedWellFormed(V, members[..|members| - 1]);
      CopyWellFormed(PropsOf(V, members[|members| - 1]), FusedProps(V, members[..|members| - 1]));
    }
  }

  /** The edge an in-edge loop creates for `e`: its tail resolved through the merge map, its head the fused vertex. */
  function InCopy(e: Edge, mergeMap: map<Id, Id>, v: Id): Edge {
    Edge(Redirect(mergeMap, e.src), e.lbl, v, e.props)
  }

  /** The edge an out-edge loop creates for `e`: its tail the fused vertex, its head resolved through the merge map. */
  function OutCopy(e: Edge, mergeMap: map<Id, Id>, v: Id): Edge {
    Edge(v, e.lbl, Redirect(mergeMap, e.dst), e.props)
  }

  /** The edges an in-edge pass makes: edge `n` is the copy of the edge `from[n]` it found. */
  function InCopies(edges: map<Id, Edge>, from: map<Id, Id>, mergeMap: map<Id, Id>, v: Id): map<Id, Edge> {
    map n | n in from && from[n] in edges :: InCopy(edges[from[n]], mergeMap, v)
  }

  /** The edges an out-edge pass makes: edge `n` is the copy of the edge `from[n]` it found. */
  function OutCopies(edges: map<Id, Edge>, from: map<Id, Id>, mergeMap: map<Id, Id>, v: Id): map<Id, Edge> {
    map n | n in from && from[n] in edges :: OutCopy(edges[from[n]], mergeMap, v)
  }

  /** `e` with every endpoint in the group replaced by the fused vertex `v`. */
  function RedirectEdge(e: Edge, group: set<Id>, v: Id): Edge {
    Edge(if e.src in group then v else e.src, e.lbl, if e.dst in group then v else e.dst, e.props)
  }

  /**
   * The edges a fusion leaves in place of an original edge `edge`: `Copy(edge)` for
   * every edge touching the group that is not a self-loop of a member, and a second
   * self-loop `TempCopy(edge)` for an edge between two different members (the copy of
   * the temporary edge made while the first of the two was handled).
   */
  datatype CopyTag = Copy(edge: Id) | TempCopy(edge: Id)

  predicate Touches(e: Edge, group: set<Id>) {
    e.src in group || e.dst in group
  }

  predicate Inside(e: Edge, group: set<Id>) {
    e.src in group && e.dst in group && e.src != e.dst
  }

  function SurvivorTags(E: map<Id, Edge>, group: set<Id>): set<CopyTag> {
    Copies(TouchingEdges(E, group)) + TempCopies(InsideEdges(E, group))
  }

  function Copies(S: set<Id>): set<CopyTag> {
    set e | e in S :: Copy(e)
  }

  function TempCopies(S: set<Id>): set<CopyTag> {
    set e | e in S :: TempCopy(e)
  }

  /** The edges touching the group that are not self-loops. */
  function TouchingEdges(E: map<Id, Edge>, group: set<Id>): set<Id> {
    set e | e in E && Touches(E[e], group) && E[e].src != E[e].dst
  }

  /** The edges a fusion leaves in place of the original edges, each as the tag names it. */
  function RedirectedCopies(E: map<Id, Edge>, group: set<Id>, v: Id, fin: map<Id, CopyTag>): map<Id, Edge> {
    map n | n in fin && fin[n].edge in E :: RedirectEdge(E[fin[n].edge], group, v)
  }

  /** The edges between two different members of the group. */
  function InsideEdges(E: map<Id, Edge>, group: set<Id>): set<Id> {
    set e | e in E && Inside(E[e], group)
  }

  /** The self-loops on members of the group. */
  function MemberLoops(E: map<Id, Edge>, group: set<Id>): set<Id> {
    set e | e in E && E[e].src in group && E[e].src == E[e].dst
  }

  lemma {:induction false} InjectiveCard<K, V>(m: map<K, V>)
    requires Injective(m)
    ensures |m.Values| == |m.Keys|
    decreases |m.Keys|
  {
    if m.Keys != {} {
      var k :| k in m.Keys;
      var m' := m - {k};
      assert m'.Keys == m.Keys - {k};
      forall y ensures y in m.Values <==> y in m'.Values + {m[k]} {
        if y in m.Values {
          var j :| j in m && m[j] == y;
          if j != k { assert j in m'; }
        }
      }
      assert m.Values == m'.Values + {m[k]};
      assert m[k] !in m'.Values;
      InjectiveCard(m');
    }
  }

  lemma {:induction false} CopyTagsCard(S: set<Id>)
    ensures |Copies(S)| == |S| && |TempCopies(S)| == |S|
    decreases |S|
  {
    if S != {} {
      var x :| x in S;
      var S' := S - {x};
      CopyTagsCard(S');
      assert Copies(S) == Copies(S') + {Copy(x)};
      assert TempCopies(S) == TempCopies(S') + {TempCopy(x)};
    }
  }

  /** Every edge either misses the group, touches it without being a loop, or is a member's self-loop. */
  lemma EdgePartitionCard(E0: map<Id, Edge>, group: set<Id>)
    ensures |E0.Keys| == |WithoutIncidentEdges(E0, group).Keys| + |TouchingEdges(E0, group)| + |MemberLoops(E0, group)|
  {
    var U := WithoutIncidentEdges(E0, group).Keys;
    var T := TouchingEdges(E0, group);
    var L := MemberLoops(E0, group);
    assert E0.Keys == U + T + L;
    assert U !! T && U !! L && T !! L;
  }

  lemma SurvivorTagsCard(E0: map<Id, Edge>, group: set<Id>)
    ensures |SurvivorTags(E0, group)| == |TouchingEdges(E0, group)| + |InsideEdges(E0, group)|
  {
    CopyTagsCard(TouchingEdges(E0, group));
    CopyTagsCard(InsideEdges(E0, group));
    assert Copies(TouchingEdges(E0, group)) !! TempCopies(InsideEdges(E0, group));
  }

  /**
   * Counting the surviving edges: a fusion whose result is described by `fin` changes the
   * number of edges by the inside edges (each comes back twice) minus the member
   * self-loops (which do not come back).
   */
  lemma FusionEdgeCount(E0: map<Id, Edge>, group: set<Id>, E1: map<Id, Edge>, fin: map<Id, CopyTag>)
    requires E1.Keys == WithoutIncidentEdges(E0, group).Keys + fin.Keys
    requires WithoutIncidentEdges(E0, group).Keys !! fin.Keys
    requires Injective(fin) && fin.Values == SurvivorTags(E0, group)
    ensures |E1| == |E0| + |InsideEdges(E0, group)| - |MemberLoops(E0, group)|
  {
    InjectiveCard(fin);
    SurvivorTagsCard(E0, group);
    EdgePartitionCard(E0, group);
    assert |E1.Keys| == |WithoutIncidentEdges(E0, group).Keys| + |fin.Keys|;
  }

  /** Every edge of `E` that touches none of the vertices `gone` is still in `E'`, unchanged. */
  ghost predicate EdgesKept(E: map<Id, Edge>, gone: set<Id>, E': map<Id, Edge>) {
    forall e :: e in E && !Touches(E[e], gone) ==> e in E' && E'[e] == E[e]
  }

  /**
   * Every edge of `E'` is an edge of `E`, unchanged and touching none of the vertices
   * `gone`, or it touches one of the vertices `added`.
   */
  ghost predicate EdgesFramed(E: map<Id, Edge>, gone: set<Id>, added: set<Id>, E': map<Id, Edge>) {
    forall e :: e in E' ==> (e in E && E'[e] == E[e] && !Touches(E[e], gone)) || Touches(E'[e], added)
  }

  /** A fusion into `v` leaves only the edges that miss the group and copies that touch `v`. */
  lemma FusionFramesEdges(E0: map<Id, Edge>, group: set<Id>, v: Id, fin: map<Id, CopyTag>, E1: map<Id, Edge>)
    requires E1 == WithoutIncidentEdges(E0, group) + RedirectedCopies(E0, group, v, fin)
    requires fin.Values == SurvivorTags(E0, group)
    ensures EdgesFramed(E0, group, {v}, E1)
  {
    forall e | e in E1 ensures (e in E0 && E1[e] == E0[e] && !Touches(E0[e], group)) || Touches(E1[e], {v}) {
      if e in RedirectedCopies(E0, group, v, fin) {
        var o := fin[e].edge;
        assert fin[e] in fin.Values;
        assert Touches(E0[o], group);
      }
    }
  }

  /** A fusion whose new edges come on fresh identities keeps every edge that misses the group. */
  lemma FusionKeepsEdges(E0: map<Id, Edge>, group: set<Id>, v: Id, fin: map<Id, CopyTag>, E1: map<Id, Edge>)
    requires E1 == WithoutIncidentEdges(E0, group) + RedirectedCopies(E0, group, v, fin)
    requires WithoutIncidentEdges(E0, group).Keys !! fin.Keys
    ensures EdgesKept(E0, group, E1)
  {
    forall e | e in E0 && !Touches(E0[e], group) ensures e in E1 && E1[e] == E0[e] {
      assert e in WithoutIncidentEdges(E0, group);
      assert e !in RedirectedCopies(E0, group, v, fin);
    }
  }
}
