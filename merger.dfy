/**
 * The rule loop: the properties rules are applied one after another to the same graph,
 * sharing one merge map; under each rule, every group of duplicates is fused in turn,
 * and the graph is committed at the end.
 */
module Merger {
  import opened Options
  import opened ElementProperties
  import opened Rules
  import opened Graphs
  import opened FusionSpec
  import opened Grouping
  import opened Fusion

  /**
   * The group loop of one rule, once the groups not in `todo` are fused: `fusedOf` names
   * the new vertex each of them became, each fresh, distinct and carrying the label.
   */
  ghost predicate FusedSoFar<K>(groups: map<K, set<Id>>, n0: Id, lbl: string, todo: set<K>, fusedOf: map<K, Id>,
                                V: map<Id, Vertex>)
  {
    && todo <= groups.Keys && fusedOf.Keys <= groups.Keys
    && (forall u :: u in groups ==> (u in todo <==> u !in fusedOf))
    && Injective(fusedOf)
    && (forall t :: t in fusedOf ==> n0 <= fusedOf[t] && fusedOf[t] in V && V[fusedOf[t]].lbl == lbl)
  }

  /**
   * The properties of the vertices fused so far: group `t` was fused, its members listed
   * in the order `orderOf[t]`, into a vertex holding their accumulated properties as they
   * were when the loop started.
   */
  ghost predicate FusedPropsSoFar<K>(V0: map<Id, Vertex>, groups: map<K, set<Id>>, lbl: string, fusedOf: map<K, Id>,
                                     orderOf: map<K, seq<Id>>, V: map<Id, Vertex>)
  {
    forall t :: t in fusedOf ==>
      && t in groups && t in orderOf && Distinct(orderOf[t]) && Members(orderOf[t]) == groups[t]
      && fusedOf[t] in V && V[fusedOf[t]] == Vertex(lbl, FusedProps(V0, orderOf[t]))
  }

  /**
   * The vertices during the group loop: the members of the fused groups are gone, every
   * other vertex of `V0` is as it was, and the only other vertices are the fused ones.
   */
  ghost predicate SurvivorsSoFar<K>(V0: map<Id, Vertex>, groups: map<K, set<Id>>, fusedOf: map<K, Id>, V: map<Id, Vertex>) {
    var done := MembersOf(groups, fusedOf.Keys);
    && (forall x :: x in V0 ==> (x in V <==> x !in done))
    && (forall x :: x in V0 && x !in done ==> V[x] == V0[x])
    && (forall x :: x in V ==> x in V0 || x in fusedOf.Values)
  }

  /** The merge map during the group loop: what it held, plus each fused member mapped to its group's vertex. */
  ghost predicate MergeMapSoFar<K>(key: map<Id, K>, groups: map<K, set<Id>>, M0: map<Id, Id>, fusedOf: map<K, Id>,
                                   M: map<Id, Id>)
  {
    var done := MembersOf(groups, fusedOf.Keys);
    && M.Keys == M0.Keys + done
    && (forall x :: x in M0 ==> M[x] == M0[x])
    && (forall x :: x in done ==> x in key && key[x] in fusedOf && M[x] == fusedOf[key[x]])
  }

  /** The vertex count of the group loop: it fell by the members fused, less one per group. */
  ghost predicate GroupLoopCount<K>(V0: map<Id, Vertex>, groups: map<K, set<Id>>, fusedOf: map<K, Id>, V: map<Id, Vertex>) {
    var done := MembersOf(groups, fusedOf.Keys);
    |V| == |V0| - |done| + |fusedOf| && |done| >= 2 * |fusedOf|
  }

  /** Groups of vertices of `V0`, each holding two or more vertices whose grouping key is the group's. */
  ghost predicate GroupsShape<K>(V0: map<Id, Vertex>, key: map<Id, K>, groups: map<K, set<Id>>) {
    && (forall t, x :: t in groups && x in groups[t] ==> x in V0 && x in key && key[x] == t)
    && (forall t :: t in groups ==> |groups[t]| >= 2)
  }

  /** Each vertex's key tuple under `keys`. */
  function TupleMap(V: map<Id, Vertex>, keys: seq<string>): map<Id, KeyTuple> {
    map x | x in V :: TupleOf(V, keys, x)
  }

  /** The groups a rule merges have the shape the group loop relies on. */
  lemma RuleGroupsShape(V0: map<Id, Vertex>, rule: MergeRule)
    requires rule.PropertiesRule?
    ensures GroupsShape(V0, TupleMap(V0, rule.keys), MergeGroups(V0, rule))
  {
    MergeGroupsShape(V0, rule);
  }

  /**
   * What applying one properties rule does to the vertices `V`, the edges `E` and the
   * merge map `M`, giving `V'`, `E'` and `M'`. A rule without candidates changes nothing.
   * Otherwise, the vertices of the groups the rule merges are gone, and every other vertex
   * is kept as it was. Each merged vertex is mapped to a new vertex with the rule's label,
   * shared exactly by the merged vertices with the same key tuple, and every new vertex is
   * such an image. That vertex holds the accumulated properties of its group, its members
   * taken in some order. The merge map keeps its old entries. Every edge that touches no
   * merged vertex is kept, every other edge left touches a new vertex, and the edge count
   * is as `EdgesAfter` says.
   */
  ghost predicate RuleStep(V: map<Id, Vertex>, E: map<Id, Edge>, M: map<Id, Id>, rule: MergeRule,
                           V': map<Id, Vertex>, E': map<Id, Edge>, M': map<Id, Id>)
    requires rule.PropertiesRule?
  {
    var groups := MergeGroups(V, rule);
    var merged := MembersOf(groups, groups.Keys);
    && (Candidates(V, rule) == {} ==> V' == V && E' == E && M' == M)
    && SurvivingVertices(V, groups, merged, V')
    && MergeImages(V, M, rule.keys, rule.lbl, merged, V', M')
    && FusedImages(V, rule.keys, groups, V', M')
    && EdgesAfter(V, E, TupleMap(V, rule.keys), merged, V', E')
  }

  /**
   * The merged vertices, all of `V`, are gone and every other vertex is kept as it was;
   * the count falls by the merged vertices and rises by one per group of two or more.
   */
  ghost predicate SurvivingVertices<K>(V: map<Id, Vertex>, groups: map<K, set<Id>>, merged: set<Id>, V': map<Id, Vertex>)
  {
    && merged <= V.Keys
    && |V'| == |V| - |merged| + |groups| && |merged| >= 2 * |groups|
    && (forall x :: x in V ==> (x in V' <==> x !in merged))
    && (forall x :: x in V && x !in merged ==> x in V' && V'[x] == V[x])
  }

  /**
   * The merge map keeps its old entries and gains the merged vertices, each mapped to a
   * vertex of `V'` not in `V` with label `lbl`, shared exactly by the merged vertices with
   * the same key tuple; every vertex of `V'` not in `V` is such an image.
   */
  ghost predicate MergeImages(V: map<Id, Vertex>, M: map<Id, Id>, keys: seq<string>, lbl: string, merged: set<Id>,
                              V': map<Id, Vertex>, M': map<Id, Id>)
  {
    && merged <= V.Keys
    && M'.Keys == M.Keys + merged
    && (forall x :: x in M ==> M'[x] == M[x])
    && (forall x :: x in merged ==> M'[x] in V' && M'[x] !in V && V'[M'[x]].lbl == lbl)
    && (forall x, y :: x in merged && y in merged ==>
          (M'[x] == M'[y] <==> TupleOf(V, keys, x) == TupleOf(V, keys, y)))
    && (forall x :: x in V' && x !in V ==> exists y :: y in merged && M'[y] == x)
  }

  /**
   * The image of each vertex of a group holds the accumulated properties of the group's
   * vertices, taken in some order.
   */
  ghost predicate FusedImages(V: map<Id, Vertex>, keys: seq<string>, groups: map<KeyTuple, set<Id>>,
                              V': map<Id, Vertex>, M': map<Id, Id>)
  {
    forall x :: x in MembersOf(groups, groups.Keys) ==>
      && x in V && x in M' && M'[x] in V' && TupleOf(V, keys, x) in groups
      && exists o :: Distinct(o) && Members(o) == groups[TupleOf(V, keys, x)] && V'[M'[x]].props == FusedProps(V, o)
  }

  /**
   * The edges once the vertices `done` are fused, group by group, from the vertices `V0`
   * and edges `E0` to `V` and `E`: every edge touching none of `done` is kept; every other
   * edge of `E` touches a vertex not in `V0`; and the count rose by one per edge between
   * two different vertices of one group (it comes back twice) and fell by one per
   * self-loop on one of `done` (it is lost). Two vertices of `done` are in one group iff
   * `key` gives them the same key.
   */
  ghost predicate EdgesAfter<K>(V0: map<Id, Vertex>, E0: map<Id, Edge>, key: map<Id, K>, done: set<Id>,
                                V: map<Id, Vertex>, E: map<Id, Edge>)
  {
    && EdgesKept(E0, done, E)
    && EdgesFramed(E0, done, V.Keys - V0.Keys, E)
    && |E| == |E0| + |SameKeyEdges(E0, key, done)| - |MemberLoops(E0, done)|
  }

  /** The edges of `E` between two different vertices of `done` with the same key. */
  ghost function SameKeyEdges<K>(E: map<Id, Edge>, key: map<Id, K>, done: set<Id>): set<Id> {
    set e | e in E && Inside(E[e], done) && E[e].src in key && E[e].dst in key && key[E[e].src] == key[E[e].dst]
  }

  /** The first `n` rules took `Vs[j]`, `Es[j]`, `Ms[j]` to `Vs[j + 1]`, `Es[j + 1]`, `Ms[j + 1]`, one after another. */
  ghost predicate RuleSteps(Vs: seq<map<Id, Vertex>>, Es: seq<map<Id, Edge>>, Ms: seq<map<Id, Id>>,
                            rules: seq<MergeRule>, n: nat)
  {
    && n <= |rules| && n < |Vs| && n < |Es| && n < |Ms|
    && forall j :: 0 <= j < n ==>
         && rules[j].PropertiesRule?
         && RuleStep(Vs[j], Es[j], Ms[j], rules[j], Vs[j + 1], Es[j + 1], Ms[j + 1])
  }

  /** The commits the first `n` rules make, one per group each merges, starting from `Vs[j]`. */
  ghost function Commits(Vs: seq<map<Id, Vertex>>, rules: seq<MergeRule>, n: nat): nat
    requires n <= |Vs| && n <= |rules|
    decreases n
  {
    if n == 0 then 0
    else Commits(Vs, rules, n - 1) + (if rules[n - 1].PropertiesRule? then |MergeGroups(Vs[n - 1], rules[n - 1])| else 0)
  }

  /** One more rule adds the commits of its groups. */
  lemma CommitsStep(Vs: seq<map<Id, Vertex>>, V: map<Id, Vertex>, rules: seq<MergeRule>, i: nat)
    requires |Vs| == i + 1 && i < |rules| && rules[i].PropertiesRule?
    ensures Commits(Vs + [V], rules, i + 1) == Commits(Vs, rules, i) + |MergeGroups(Vs[i], rules[i])|
  {
    CommitsPrefix(Vs, Vs + [V], rules, i);
  }

  /** The commits of the first `n` rules depend only on the first `n` states. */
  lemma {:induction false} CommitsPrefix(Vs: seq<map<Id, Vertex>>, Vs': seq<map<Id, Vertex>>, rules: seq<MergeRule>, n: nat)
    requires n <= |Vs| && n <= |Vs'| && n <= |rules|
    requires forall j :: 0 <= j < n ==> Vs'[j] == Vs[j]
    ensures Commits(Vs', rules, n) == Commits(Vs, rules, n)
    decreases n
  {
    if n > 0 {
      CommitsPrefix(Vs, Vs', rules, n - 1);
    }
  }

  /**
   * Merges the graph under the given rules: only the properties rules are applied, in
   * the order given, each to the graph the previous one left and all of them sharing
   * one merge map; the graph is committed at the end. `Vs`, `Es` and `Ms` are the
   * vertices, edges and merge map before each rule and after the last.
   */
  method MergeGraphs(g: Graph, rules: seq<MergeRule>)
    returns (ghost Vs: seq<map<Id, Vertex>>, ghost Es: seq<map<Id, Edge>>, ghost Ms: seq<map<Id, Id>>)
    requires g.Valid()
    modifies g
    ensures g.Valid() && old(g.nextId) <= g.nextId
    ensures |Vs| == |Es| == |Ms| == |PropertyRules(rules)| + 1
    ensures g.commits == old(g.commits) + Commits(Vs, PropertyRules(rules), |PropertyRules(rules)|) + 1
    ensures Vs[0] == old(g.vertices) && Es[0] == old(g.edges) && Ms[0] == map[]
    ensures Vs[|Vs| - 1] == g.vertices && Es[|Es| - 1] == g.edges
    ensures RuleSteps(Vs, Es, Ms, PropertyRules(rules), |PropertyRules(rules)|)
    ensures |g.vertices| <= |old(g.vertices)|
    ensures forall x :: x in g.vertices ==>
      || (x in old(g.vertices) && g.vertices[x] == old(g.vertices)[x])
      || (old(g.nextId) <= x && exists r :: r in rules && r.PropertiesRule? && r.lbl == g.vertices[x].lbl)
    ensures PropertyRules(rules) == [] ==> g.vertices == old(g.vertices) && g.edges == old(g.edges)
  {
    var propertyRules := PropertyRules(rules);
    var mergeMap: map<Id, Id> := map[];
    Vs, Es, Ms := [g.vertices], [g.edges], [mergeMap];
    assert propertyRules == PropertyRules(rules);
    for i := 0 to |propertyRules|
      invariant g.Valid() && Retired(mergeMap, g.vertices, g.nextId) && old(g.nextId) <= g.nextId
      invariant Trace(Vs, Es, Ms, i, old(g.vertices), old(g.edges), g.vertices, g.edges, mergeMap)
      invariant RuleSteps(Vs, Es, Ms, propertyRules, i)
      invariant g.commits == old(g.commits) + Commits(Vs, propertyRules, i) && |g.vertices| <= |old(g.vertices)|
      invariant FromRules(old(g.vertices), old(g.nextId), rules, g.vertices)
    {
      mergeMap, Vs, Es, Ms := ApplyNextRule(g, propertyRules, i, mergeMap, Vs, Es, Ms,
                                            old(g.vertices), old(g.edges), old(g.nextId), rules);
    }
    g.Commit();
  }

  /**
   * `Vs`, `Es` and `Ms` record `i + 1` graphs, from the vertices `V0` and edges `E0` with an
   * empty merge map up to the current `V`, `E` and `M`.
   */
  ghost predicate Trace(Vs: seq<map<Id, Vertex>>, Es: seq<map<Id, Edge>>, Ms: seq<map<Id, Id>>, i: nat,
                        V0: map<Id, Vertex>, E0: map<Id, Edge>, V: map<Id, Vertex>, E: map<Id, Edge>, M: map<Id, Id>) {
    && |Vs| == |Es| == |Ms| == i + 1
    && Vs[0] == V0 && Es[0] == E0 && Ms[0] == map[]
    && Vs[i] == V && Es[i] == E && Ms[i] == M
  }

  /** Recording one more graph extends the trace. */
  lemma TraceExtend(Vs: seq<map<Id, Vertex>>, Es: seq<map<Id, Edge>>, Ms: seq<map<Id, Id>>, i: nat,
                    V0: map<Id, Vertex>, E0: map<Id, Edge>, V: map<Id, Vertex>, E: map<Id, Edge>, M: map<Id, Id>,
                    V': map<Id, Vertex>, E': map<Id, Edge>, M': map<Id, Id>)
    requires Trace(Vs, Es, Ms, i, V0, E0, V, E, M)
    ensures Trace(Vs + [V'], Es + [E'], Ms + [M'], i + 1, V0, E0, V', E', M')
  {
  }

  /**
   * Every vertex of `V` is a vertex of `V0`, unchanged, or one numbered `n0` or later that
   * carries the label of a properties rule among `rules`.
   */
  ghost predicate FromRules(V0: map<Id, Vertex>, n0: Id, rules: seq<MergeRule>, V: map<Id, Vertex>) {
    forall x :: x in V ==>
      || (x in V0 && V[x] == V0[x])
      || (n0 <= x && exists r :: r in rules && r.PropertiesRule? && r.lbl == V[x].lbl)
  }

  /** Two rule stretches in a row, the second with rules taken from the first's list, make one. */
  lemma FromRulesTrans(V0: map<Id, Vertex>, V1: map<Id, Vertex>, V2: map<Id, Vertex>, n0: Id, n1: Id,
                       rules: seq<MergeRule>, later: seq<MergeRule>)
    requires FromRules(V0, n0, rules, V1) && FromRules(V1, n1, later, V2)
    requires n0 <= n1 && forall r :: r in later ==> r in rules
    ensures FromRules(V0, n0, rules, V2)
  {
    forall x | x in V2 && !(x in V0 && V2[x] == V0[x])
      ensures n0 <= x && exists r :: r in rules && r.PropertiesRule? && r.lbl == V2[x].lbl
    {
      if x in V1 && V2[x] == V1[x] {
        var r :| r in rules && r.PropertiesRule? && r.lbl == V1[x].lbl;
      } else {
        var r :| r in later && r.PropertiesRule? && r.lbl == V2[x].lbl;
        assert r in rules;
      }
    }
  }

  /**
   * One turn of the rule loop: rule `i` is applied, and the step it takes is recorded.
   * The trace of graphs since `V0` and `E0` grows by one, and every vertex still comes
   * from `V0` or from a rule among `allRules`.
   */
  method ApplyNextRule(g: Graph, rules: seq<MergeRule>, i: nat, mergeMap: map<Id, Id>,
                       ghost Vs: seq<map<Id, Vertex>>, ghost Es: seq<map<Id, Edge>>, ghost Ms: seq<map<Id, Id>>,
                       ghost V0: map<Id, Vertex>, ghost E0: map<Id, Edge>, ghost n0: Id, ghost allRules: seq<MergeRule>)
    returns (mergeMap': map<Id, Id>,
             ghost Vs': seq<map<Id, Vertex>>, ghost Es': seq<map<Id, Edge>>, ghost Ms': seq<map<Id, Id>>)
    requires i < |rules| && forall r :: r in rules ==> r.PropertiesRule? && r in allRules
    requires g.Valid() && Retired(mergeMap, g.vertices, g.nextId) && n0 <= g.nextId
    requires Trace(Vs, Es, Ms, i, V0, E0, g.vertices, g.edges, mergeMap) && RuleSteps(Vs, Es, Ms, rules, i)
    requires FromRules(V0, n0, allRules, g.vertices)
    modifies g
    ensures g.Valid() && Retired(mergeMap', g.vertices, g.nextId) && old(g.nextId) <= g.nextId
    ensures g.commits == old(g.commits) + |MergeGroups(Vs[i], rules[i])| && |g.vertices| <= |old(g.vertices)|
    ensures Vs' == Vs + [g.vertices] && Es' == Es + [g.edges] && Ms' == Ms + [mergeMap']
    ensures Commits(Vs', rules, i + 1) == Commits(Vs, rules, i) + |MergeGroups(Vs[i], rules[i])|
    ensures Trace(Vs', Es', Ms', i + 1, V0, E0, g.vertices, g.edges, mergeMap') && RuleSteps(Vs', Es', Ms', rules, i + 1)
    ensures FromRules(V0, n0, allRules, g.vertices)
  {
    var rule := rules[i];
    mergeMap' := ApplyRule(g, rule, mergeMap);
    RuleLabels(old(g.vertices), old(g.edges), mergeMap, rule, g.vertices, g.edges, mergeMap');
    RuleStepsExtend(Vs, Es, Ms, rules, i, g.vertices, g.edges, mergeMap');
    Vs', Es', Ms' := Vs + [g.vertices], Es + [g.edges], Ms + [mergeMap'];
    CommitsStep(Vs, g.vertices, rules, i);
    TraceExtend(Vs, Es, Ms, i, V0, E0, old(g.vertices), old(g.edges), mergeMap, g.vertices, g.edges, mergeMap');
    assert FromRules(old(g.vertices), old(g.nextId), rules, g.vertices);
    FromRulesTrans(V0, old(g.vertices), g.vertices, n0, old(g.nextId), allRules, rules);
  }

  /**
   * Applies one properties rule: finds its candidates, skips the rule when there are
   * none, groups them by key tuple, keeps the groups worth merging and fuses each, in
   * no particular order, into a new vertex carrying the rule's label; one commit per group.
   */
  method ApplyRule(g: Graph, rule: MergeRule, mergeMap: map<Id, Id>) returns (mergeMap': map<Id, Id>)
    requires rule.PropertiesRule? && g.Valid() && Retired(mergeMap, g.vertices, g.nextId)
    modifies g
    ensures g.Valid() && Retired(mergeMap', g.vertices, g.nextId) && old(g.nextId) <= g.nextId
    ensures Candidates(old(g.vertices), rule) == {} ==> unchanged(g) && mergeMap' == mergeMap
    ensures g.commits == old(g.commits) + |MergeGroups(old(g.vertices), rule)|
    ensures RuleStep(old(g.vertices), old(g.edges), mergeMap, rule, g.vertices, g.edges, mergeMap')
    ensures forall x :: x in g.vertices && x !in old(g.vertices) ==> old(g.nextId) <= x
  {
    if Candidates(g.vertices, rule) == {} {
      NoCandidatesStep(g.vertices, g.edges, mergeMap, rule);
      return mergeMap;
    }
    ghost var V0, E0 := g.vertices, g.edges;
    var groups := MergeGroups(g.vertices, rule);
    ghost var key := TupleMap(V0, rule.keys);
    RuleGroupsShape(V0, rule);
    ghost var fusedOf, orderOf;
    mergeMap', fusedOf, orderOf := MergeAllGroups(g, groups, key, rule.lbl, mergeMap);
    GroupLoopStep(old(g.vertices), old(g.edges), mergeMap, rule, key, groups, old(g.nextId), fusedOf, orderOf,
                  g.vertices, g.edges, mergeMap');
  }

  /**
   * The group loop: the groups are fused one at a time, in no particular order, each
   * into a new vertex labelled `lbl`, threading the merge map through. Edges that touch
   * no member of any group are left alone.
   */
  method MergeAllGroups<K(==)>(g: Graph, groups: map<K, set<Id>>, ghost key: map<Id, K>, lbl: string,
                               mergeMap: map<Id, Id>)
    returns (mergeMap': map<Id, Id>, ghost fusedOf: map<K, Id>, ghost orderOf: map<K, seq<Id>>)
    requires g.Valid() && Retired(mergeMap, g.vertices, g.nextId) && GroupsShape(g.vertices, key, groups)
    modifies g
    ensures g.Valid() && Retired(mergeMap', g.vertices, g.nextId) && old(g.nextId) <= g.nextId
    ensures g.commits == old(g.commits) + |fusedOf|
    ensures GroupLoop(old(g.vertices), old(g.edges), key, groups, mergeMap, old(g.nextId), lbl, {}, fusedOf, orderOf,
                      g.vertices, g.edges, mergeMap')
  {
    ghost var V0, E0, n0, c0 := g.vertices, g.edges, g.nextId, g.commits;
    var todo := groups.Keys;
    fusedOf, orderOf := map[], map[];
    mergeMap' := mergeMap;
    GroupLoopStart(V0, E0, key, lbl, groups, mergeMap, n0);
    while todo != {}
      invariant g.Valid() && Retired(mergeMap', g.vertices, g.nextId) && n0 <= g.nextId
      invariant g.commits == c0 + |fusedOf|
      invariant GroupLoop(V0, E0, key, groups, mergeMap, n0, lbl, todo, fusedOf, orderOf, g.vertices, g.edges, mergeMap')
      decreases |todo|
    {
      var t :| t in todo;
      ghost var v, order;
      mergeMap', v, order := FuseNextGroup(g, groups, t, lbl, mergeMap', V0, E0, key, mergeMap, n0, todo, fusedOf, orderOf);
      fusedOf, orderOf := fusedOf[t := v], orderOf[t := order];
      todo := todo - {t};
    }
  }

  /** One turn of the group loop: group `t`, still to fuse, is fused into `v`, its members listed in `order`. */
  method FuseNextGroup<K(==)>(g: Graph, groups: map<K, set<Id>>, t: K, lbl: string, mergeMap: map<Id, Id>,
                              ghost V0: map<Id, Vertex>, ghost E0: map<Id, Edge>, ghost key: map<Id, K>,
                              ghost M0: map<Id, Id>, ghost n0: Id, ghost todo: set<K>, ghost fusedOf: map<K, Id>,
                              ghost orderOf: map<K, seq<Id>>)
    returns (mergeMap': map<Id, Id>, ghost v: Id, ghost order: seq<Id>)
    requires g.Valid() && Retired(mergeMap, g.vertices, g.nextId) && n0 <= g.nextId
    requires GroupLoop(V0, E0, key, groups, M0, n0, lbl, todo, fusedOf, orderOf, g.vertices, g.edges, mergeMap)
    requires GroupsShape(V0, key, groups) && t in todo
    requires (forall x :: x in V0 ==> x < n0) && (forall x :: x in M0 ==> x !in V0)
    modifies g
    ensures g.Valid() && Retired(mergeMap', g.vertices, g.nextId) && n0 <= g.nextId
    ensures g.commits == old(g.commits) + 1 && |fusedOf[t := v]| == |fusedOf| + 1
    ensures GroupLoop(V0, E0, key, groups, M0, n0, lbl, todo - {t}, fusedOf[t := v], orderOf[t := order],
                      g.vertices, g.edges, mergeMap')
  {
    GroupUnfused(V0, E0, key, groups, M0, n0, lbl, todo, fusedOf, orderOf, g.vertices, g.edges, mergeMap, t);
    ghost var fin;
    mergeMap', v, order, fin := MergeGroup(g, groups[t], lbl, mergeMap);
    GroupTurn(V0, E0, key, groups, M0, n0, lbl, todo, fusedOf, orderOf, old(g.vertices), old(g.edges), mergeMap,
              t, v, order, g.vertices, g.edges, mergeMap');
  }

  /** The whole state of the group loop, with the groups in `todo` still to fuse. */
  ghost predicate GroupLoop<K>(V0: map<Id, Vertex>, E0: map<Id, Edge>, key: map<Id, K>, groups: map<K, set<Id>>,
                               M0: map<Id, Id>, n0: Id, lbl: string, todo: set<K>, fusedOf: map<K, Id>,
                               orderOf: map<K, seq<Id>>, V: map<Id, Vertex>, E: map<Id, Edge>, M: map<Id, Id>)
  {
    && FusedSoFar(groups, n0, lbl, todo, fusedOf, V)
    && FusedPropsSoFar(V0, groups, lbl, fusedOf, orderOf, V)
    && SurvivorsSoFar(V0, groups, fusedOf, V)
    && MergeMapSoFar(key, groups, M0, fusedOf, M)
    && GroupLoopCount(V0, groups, fusedOf, V)
    && EdgesAfter(V0, E0, key, MembersOf(groups, fusedOf.Keys), V, E)
  }

  /** A group still to fuse is whole in the graph and not fused yet. */
  lemma GroupUnfused<K>(V0: map<Id, Vertex>, E0: map<Id, Edge>, key: map<Id, K>, groups: map<K, set<Id>>,
                        M0: map<Id, Id>, n0: Id, lbl: string, todo: set<K>, fusedOf: map<K, Id>,
                        orderOf: map<K, seq<Id>>, V: map<Id, Vertex>, E: map<Id, Edge>, M: map<Id, Id>, t: K)
    requires GroupLoop(V0, E0, key, groups, M0, n0, lbl, todo, fusedOf, orderOf, V, E, M)
    requires GroupsShape(V0, key, groups) && t in todo
    ensures t in groups && t !in fusedOf && groups[t] <= V.Keys && groups[t] != {}
  {
    GroupLive(V0, key, groups, fusedOf, V, t);
  }

  /** Fusing one more group into a fresh vertex `v` keeps the state of the group loop. */
  lemma GroupTurn<K>(V0: map<Id, Vertex>, E0: map<Id, Edge>, key: map<Id, K>, groups: map<K, set<Id>>,
                     M0: map<Id, Id>, n0: Id, lbl: string, todo: set<K>, fusedOf: map<K, Id>,
                     orderOf: map<K, seq<Id>>, V: map<Id, Vertex>, E: map<Id, Edge>, M: map<Id, Id>,
                     t: K, v: Id, order: seq<Id>, V': map<Id, Vertex>, E': map<Id, Edge>, M': map<Id, Id>)
    requires GroupLoop(V0, E0, key, groups, M0, n0, lbl, todo, fusedOf, orderOf, V, E, M)
    requires GroupsShape(V0, key, groups) && t in todo
    requires (forall x :: x in V0 ==> x < n0) && (forall x :: x in M0 ==> x !in V0)
    requires n0 <= v && v !in V
    requires Members(order) == groups[t] && Distinct(order)
    requires V' == WithoutVertices(V, groups[t])[v := Vertex(lbl, FusedProps(V, order))]
    requires EdgesKept(E, groups[t], E') && EdgesFramed(E, groups[t], {v}, E')
    requires |E'| == |E| + |InsideEdges(E, groups[t])| - |MemberLoops(E, groups[t])|
    requires M'.Keys == M.Keys + groups[t]
    requires forall x :: x in groups[t] ==> M'[x] == v
    requires forall x :: x in M && x !in groups[t] ==> M'[x] == M[x]
    ensures |fusedOf[t := v]| == |fusedOf| + 1
    ensures GroupLoop(V0, E0, key, groups, M0, n0, lbl, todo - {t}, fusedOf[t := v], orderOf[t := order], V', E', M')
  {
    GroupLive(V0, key, groups, fusedOf, V, t);
    GroupKeys(V0, key, groups, t);
    var P := FusedProps(V, order);
    FusedPropsStep(V0, groups, lbl, fusedOf, orderOf, V, t, v, order, n0, V');
    FusedStep(groups, n0, lbl, todo, fusedOf, V, t, v, P, V');
    SurvivorsStep(V0, groups, fusedOf, V, t, v, n0, lbl, P, V');
    MergeMapStep(V0, key, groups, M0, fusedOf, M, t, v, M');
    GroupCountStep(V0, groups, fusedOf, V, t, v, lbl, P, V');
    FusedKeys(V, groups[t], v, Vertex(lbl, P), V');
    EdgesStep(V0, E0, key, groups, fusedOf, V, E, t, v, V', E');
  }

  /**
   * One turn of the group loop: the members of a group, listed in some order `order`,
   * are fused into a new vertex `v`, and the merge map sends each of them there. The
   * edges come out as the fusion of the group describes them: every edge missing the
   * group is kept, and the copies the fusion leaves are those `fin` tags.
   */
  method MergeGroup(g: Graph, members: set<Id>, lbl: string, mergeMap: map<Id, Id>)
    returns (mergeMap': map<Id, Id>, ghost v: Id, ghost order: seq<Id>, ghost fin: map<Id, CopyTag>)
    requires g.Valid() && Retired(mergeMap, g.vertices, g.nextId) && members <= g.vertices.Keys && members != {}
    modifies g
    ensures g.Valid() && Retired(mergeMap', g.vertices, g.nextId)
    ensures v == old(g.nextId) && v < g.nextId && g.commits == old(g.commits) + 1
    ensures Members(order) == members && Distinct(order)
    ensures g.vertices == WithoutVertices(old(g.vertices), members)[v := Vertex(lbl, FusedProps(old(g.vertices), order))]
    ensures g.edges == WithoutIncidentEdges(old(g.edges), members) + RedirectedCopies(old(g.edges), members, v, fin)
    ensures WithoutIncidentEdges(old(g.edges), members).Keys !! fin.Keys
    ensures Injective(fin) && fin.Values == SurvivorTags(old(g.edges), members)
    ensures |g.edges| == |old(g.edges)| + |InsideEdges(old(g.edges), members)| - |MemberLoops(old(g.edges), members)|
    ensures EdgesKept(old(g.edges), members, g.edges) && EdgesFramed(old(g.edges), members, {v}, g.edges)
    ensures mergeMap'.Keys == mergeMap.Keys + members
    ensures forall x :: x in members ==> mergeMap'[x] == v
    ensures forall x :: x in mergeMap && x !in members ==> mergeMap'[x] == mergeMap[x]
  {
    var group := MemberList(members);
    order := group;
    ghost var E := g.edges;
    v := g.nextId;
    var fused;
    fused, mergeMap', fin := MergeVertices(g, group, lbl, mergeMap);
    FusionKeepsEdges(E, members, v, fin, g.edges);
    FusionFramesEdges(E, members, v, fin, g.edges);
    MergedIntoUpdate(mergeMap, group, v);
  }

  /** A rule without candidates has nothing to merge. */
  lemma NoCandidatesNoGroups(V: map<Id, Vertex>, rule: MergeRule)
    requires rule.PropertiesRule? && Candidates(V, rule) == {}
    ensures var groups := MergeGroups(V, rule); groups == map[] && MembersOf(groups, groups.Keys) == {}
  {
    assert TuplesOf(V, {}, rule.keys) == {};
  }

  /** Before the group loop, nothing is fused yet. */
  lemma GroupLoopStart<K>(V0: map<Id, Vertex>, E0: map<Id, Edge>, key: map<Id, K>, lbl: string,
                          groups: map<K, set<Id>>, M0: map<Id, Id>, n0: Id)
    ensures FusedSoFar(groups, n0, lbl, groups.Keys, map[], V0)
    ensures SurvivorsSoFar(V0, groups, map[], V0)
    ensures MergeMapSoFar(key, groups, M0, map[], M0)
    ensures GroupLoopCount(V0, groups, map[], V0)
    ensures EdgesAfter(V0, E0, key, MembersOf(groups, {}), V0, E0)
  {
    assert MembersOf(groups, {}) == {};
    assert SameKeyEdges(E0, key, {}) == {} && MemberLoops(E0, {}) == {};
  }

  /** A group not yet fused is still whole in the graph, and shares no vertex with the fused ones. */
  lemma GroupLive<K>(V0: map<Id, Vertex>, key: map<Id, K>, groups: map<K, set<Id>>, fusedOf: map<K, Id>,
                     V: map<Id, Vertex>, t: K)
    requires SurvivorsSoFar(V0, groups, fusedOf, V)
    requires GroupsShape(V0, key, groups) && t in groups && t !in fusedOf
    ensures groups[t] <= V.Keys && |groups[t]| >= 2
    ensures MembersOf(groups, fusedOf.Keys) !! groups[t]
    ensures forall x :: x in groups[t] ==> V[x] == V0[x]
  {
    forall x | x in groups[t] ensures x in V {
      assert key[x] == t;
    }
  }

  /** The members of one more group. */
  lemma MembersOfAdd<K>(groups: map<K, set<Id>>, ts: set<K>, t: K)
    requires t in groups
    ensures MembersOf(groups, ts + {t}) == MembersOf(groups, ts) + groups[t]
  {
    forall x | x in groups[t] ensures x in MembersOf(groups, ts + {t}) {
    }
  }

  /** The vertex count once some vertices are gone. */
  lemma WithoutVerticesCard(V: map<Id, Vertex>, gone: set<Id>)
    requires gone <= V.Keys
    ensures |WithoutVertices(V, gone)| == |V| - |gone|
  {
    assert WithoutVertices(V, gone).Keys == V.Keys - gone;
  }

  /** Fusing group `t` into the fresh vertex `v` records one more fused group. */
  lemma FusedStep<K>(groups: map<K, set<Id>>, n0: Id, lbl: string, todo: set<K>, fusedOf: map<K, Id>,
                     V: map<Id, Vertex>, t: K, v: Id, P: Props, V': map<Id, Vertex>)
    requires FusedSoFar(groups, n0, lbl, todo, fusedOf, V)
    requires t in todo && n0 <= v && v !in V && forall x :: x in groups[t] ==> x < n0
    requires V' == WithoutVertices(V, groups[t])[v := Vertex(lbl, P)]
    ensures FusedSoFar(groups, n0, lbl, todo - {t}, fusedOf[t := v], V')
  {
    assert v !in fusedOf.Values;
  }

  /** Fusing group `t` into the fresh vertex `v` removes exactly its members from the survivors. */
  lemma SurvivorsStep<K>(V0: map<Id, Vertex>, groups: map<K, set<Id>>, fusedOf: map<K, Id>, V: map<Id, Vertex>,
                         t: K, v: Id, n0: Id, lbl: string, P: Props, V': map<Id, Vertex>)
    requires SurvivorsSoFar(V0, groups, fusedOf, V)
    requires t in groups && t !in fusedOf && (forall x :: x in V0 ==> x < n0) && n0 <= v
    requires V' == WithoutVertices(V, groups[t])[v := Vertex(lbl, P)]
    ensures SurvivorsSoFar(V0, groups, fusedOf[t := v], V')
  {
    assert fusedOf[t := v].Keys == fusedOf.Keys + {t};
    MembersOfAdd(groups, fusedOf.Keys, t);
    forall x | x in V' ensures x in V0 || x in fusedOf[t := v].Values {
      if x != v {
        if x !in V0 {
          var u :| u in fusedOf && fusedOf[u] == x;
          assert fusedOf[t := v][u] == x;
        }
      } else {
        assert fusedOf[t := v][t] == v;
      }
    }
  }

  /** The members of group `t` are vertices of `V0` whose key is `t`. */
  lemma GroupKeys<K>(V0: map<Id, Vertex>, key: map<Id, K>, groups: map<K, set<Id>>, t: K)
    requires GroupsShape(V0, key, groups) && t in groups
    ensures forall x :: x in groups[t] ==> x in V0 && x in key && key[x] == t
  {
  }

  /** Adding the entries of a fused group to a merge map, entry by entry. */
  lemma MergedIntoUpdate(M: map<Id, Id>, group: seq<Id>, v: Id)
    ensures (M + MergedInto(group, v)).Keys == M.Keys + Members(group)
    ensures forall x :: x in Members(group) ==> (M + MergedInto(group, v))[x] == v
    ensures forall x :: x in M && x !in Members(group) ==> (M + MergedInto(group, v))[x] == M[x]
  {
  }

  /** Fusing group `t` into `v` maps each of its members to `v`. */
  lemma MergeMapStep<K>(V0: map<Id, Vertex>, key: map<Id, K>, groups: map<K, set<Id>>, M0: map<Id, Id>,
                        fusedOf: map<K, Id>, M: map<Id, Id>, t: K, v: Id, M': map<Id, Id>)
    requires MergeMapSoFar(key, groups, M0, fusedOf, M)
    requires forall x :: x in M0 ==> x !in V0
    requires t in groups && t !in fusedOf && forall x :: x in groups[t] ==> x in V0 && x in key && key[x] == t
    requires M'.Keys == M.Keys + groups[t]
    requires forall x :: x in groups[t] ==> M'[x] == v
    requires forall x :: x in M && x !in groups[t] ==> M'[x] == M[x]
    ensures MergeMapSoFar(key, groups, M0, fusedOf[t := v], M')
  {
    var done := MembersOf(groups, fusedOf.Keys);
    var fusedOf' := fusedOf[t := v];
    assert fusedOf'.Keys == fusedOf.Keys + {t};
    MembersOfAdd(groups, fusedOf.Keys, t);
    forall x | x in M0 ensures M'[x] == M0[x] {
      assert x !in groups[t];
    }
    forall x | x in done && x !in groups[t] ensures x in key && key[x] in fusedOf' && M'[x] == fusedOf'[key[x]] {
      assert key[x] != t;
    }
  }

  /** Fusing group `t` into the new vertex `v` keeps the vertex count in step. */
  lemma GroupCountStep<K>(V0: map<Id, Vertex>, groups: map<K, set<Id>>, fusedOf: map<K, Id>, V: map<Id, Vertex>,
                          t: K, v: Id, lbl: string, P: Props, V': map<Id, Vertex>)
    requires GroupLoopCount(V0, groups, fusedOf, V)
    requires t in groups && t !in fusedOf && |groups[t]| >= 2
    requires groups[t] <= V.Keys && v !in V && MembersOf(groups, fusedOf.Keys) !! groups[t]
    requires V' == WithoutVertices(V, groups[t])[v := Vertex(lbl, P)]
    ensures GroupLoopCount(V0, groups, fusedOf[t := v], V')
  {
    DoneCardStep(groups, fusedOf, t, v);
    FusedVertexCard(V, groups[t], v, Vertex(lbl, P), V');
    assert |fusedOf[t := v]| == |fusedOf| + 1;
  }

  /** Fusing group `t` adds exactly its members to the merged vertices. */
  lemma DoneCardStep<K>(groups: map<K, set<Id>>, fusedOf: map<K, Id>, t: K, v: Id)
    requires t in groups && MembersOf(groups, fusedOf.Keys) !! groups[t]
    ensures |MembersOf(groups, fusedOf[t := v].Keys)| == |MembersOf(groups, fusedOf.Keys)| + |groups[t]|
  {
    assert fusedOf[t := v].Keys == fusedOf.Keys + {t};
    MembersOfAdd(groups, fusedOf.Keys, t);
  }

  /** Replacing the vertices `gone` by one fresh vertex. */
  lemma FusedVertexCard(V: map<Id, Vertex>, gone: set<Id>, v: Id, w: Vertex, V': map<Id, Vertex>)
    requires gone <= V.Keys && v !in V
    requires V' == WithoutVertices(V, gone)[v := w]
    ensures |V'| == |V| - |gone| + 1
  {
    WithoutVerticesCard(V, gone);
    assert v !in WithoutVertices(V, gone);
  }

  /** Once every group is fused, the rule's outcome in terms of the graph it started from. */
  lemma RuleOutcome<K>(V0: map<Id, Vertex>, key: map<Id, K>, lbl: string, groups: map<K, set<Id>>,
                    M0: map<Id, Id>, n0: Id, fusedOf: map<K, Id>, V: map<Id, Vertex>, M: map<Id, Id>)
    requires FusedSoFar(groups, n0, lbl, {}, fusedOf, V)
    requires SurvivorsSoFar(V0, groups, fusedOf, V)
    requires MergeMapSoFar(key, groups, M0, fusedOf, M)
    requires GroupsShape(V0, key, groups)
    ensures fusedOf.Keys == groups.Keys
    ensures var merged := MembersOf(groups, groups.Keys);
      && merged <= V0.Keys
      && M.Keys == M0.Keys + merged
      && (forall x :: x in M0 ==> M[x] == M0[x])
      && (forall x :: x in V0 ==> (x in V <==> x !in merged))
      && (forall x :: x in V0 && x !in merged ==> V[x] == V0[x])
      && (forall x :: x in merged ==> M[x] in V && n0 <= M[x] && V[M[x]].lbl == lbl)
      && (forall x, y :: x in merged && y in merged ==>
            (M[x] == M[y] <==> key[x] == key[y]))
      && (forall x :: x in V && x !in V0 ==> exists y :: y in merged && M[y] == x)
  {
    var merged := MembersOf(groups, groups.Keys);
    assert fusedOf.Keys == groups.Keys;
    forall x | x in V && x !in V0 ensures exists y :: y in merged && M[y] == x {
      var t :| t in fusedOf && fusedOf[t] == x;
      var y :| y in groups[t];
      assert key[y] == t;
    }
  }

  /** Once every group is fused, the vertex count fell by the members, less one per group. */
  lemma RuleCount<K>(V0: map<Id, Vertex>, groups: map<K, set<Id>>, fusedOf: map<K, Id>, V: map<Id, Vertex>)
    requires GroupLoopCount(V0, groups, fusedOf, V) && fusedOf.Keys == groups.Keys
    ensures var merged := MembersOf(groups, groups.Keys);
      |fusedOf| == |groups| && |V| == |V0| - |merged| + |groups| && |merged| >= 2 * |groups|
  {
    assert |fusedOf| == |fusedOf.Keys|;
  }

  /** Fusing group `t` into the fresh vertex `v` keeps the edges of the group loop in step. */
  lemma EdgesStep<K>(V0: map<Id, Vertex>, E0: map<Id, Edge>, key: map<Id, K>, groups: map<K, set<Id>>,
                     fusedOf: map<K, Id>, V: map<Id, Vertex>, E: map<Id, Edge>, t: K, v: Id,
                     V': map<Id, Vertex>, E': map<Id, Edge>)
    requires EdgesAfter(V0, E0, key, MembersOf(groups, fusedOf.Keys), V, E)
    requires GroupsShape(V0, key, groups) && t in groups && t !in fusedOf && v !in V0
    requires V'.Keys == V.Keys - groups[t] + {v}
    requires EdgesKept(E, groups[t], E') && EdgesFramed(E, groups[t], {v}, E')
    requires |E'| == |E| + |InsideEdges(E, groups[t])| - |MemberLoops(E, groups[t])|
    ensures EdgesAfter(V0, E0, key, MembersOf(groups, fusedOf[t := v].Keys), V', E')
  {
    var G, done, done' := groups[t], MembersOf(groups, fusedOf.Keys), MembersOf(groups, fusedOf[t := v].Keys);
    assert fusedOf[t := v].Keys == fusedOf.Keys + {t};
    MembersOfAdd(groups, fusedOf.Keys, t);
    GroupKeysApart(V0, key, groups, fusedOf.Keys, t);
    EdgesFuse(V0, E0, key, done, V, E, G, t, v, done', V', E');
  }

  /**
   * Fusing the vertices `G`, all of key `t`, into the fresh vertex `v` once the vertices
   * `done`, none of key `t`, are fused keeps the edges in step.
   */
  lemma EdgesFuse<K>(V0: map<Id, Vertex>, E0: map<Id, Edge>, key: map<Id, K>, done: set<Id>,
                     V: map<Id, Vertex>, E: map<Id, Edge>, G: set<Id>, t: K, v: Id, done': set<Id>,
                     V': map<Id, Vertex>, E': map<Id, Edge>)
    requires EdgesAfter(V0, E0, key, done, V, E) && done' == done + G
    requires G <= V0.Keys && forall x :: x in G ==> x in key && key[x] == t
    requires forall x :: x in done ==> x in key && key[x] != t
    requires v !in V0 && V'.Keys == V.Keys - G + {v}
    requires EdgesKept(E, G, E') && EdgesFramed(E, G, {v}, E')
    requires |E'| == |E| + |InsideEdges(E, G)| - |MemberLoops(E, G)|
    ensures EdgesAfter(V0, E0, key, done', V', E')
  {
    KeptStep(E0, done, E, G, done', E');
    FramedStep(V0, E0, done, V, E, G, v, done', V', E');
    GroupEdgesUntouched(V0, E0, done, V, E, G);
    SameKeyEdgesAdd(E0, key, done, G, t, done');
    MemberLoopsAdd(E0, done, G, done');
  }

  /** The members of group `t` have key `t`; the members of other groups do not. */
  lemma GroupKeysApart<K>(V0: map<Id, Vertex>, key: map<Id, K>, groups: map<K, set<Id>>, ts: set<K>, t: K)
    requires GroupsShape(V0, key, groups) && t in groups && t !in ts
    ensures groups[t] <= V0.Keys && forall x :: x in groups[t] ==> x in key && key[x] == t
    ensures forall x :: x in MembersOf(groups, ts) ==> x in key && key[x] != t
  {
    forall x | x in MembersOf(groups, ts) ensures x in key && key[x] != t {
      var u :| u in groups && u in ts && x in groups[u];
    }
  }

  /** The vertices once the vertices `gone` are replaced by `v`. */
  lemma FusedKeys(V: map<Id, Vertex>, gone: set<Id>, v: Id, w: Vertex, V': map<Id, Vertex>)
    requires V' == WithoutVertices(V, gone)[v := w]
    ensures V'.Keys == V.Keys - gone + {v}
  {
  }

  /** Edges kept through two stretches are kept through both. */
  lemma KeptStep(E0: map<Id, Edge>, done: set<Id>, E: map<Id, Edge>, G: set<Id>, done': set<Id>, E': map<Id, Edge>)
    requires EdgesKept(E0, done, E) && EdgesKept(E, G, E') && done' == done + G
    ensures EdgesKept(E0, done', E')
  {
  }

  /** After one more fusion into `v`, every edge that is not kept touches a new vertex. */
  lemma FramedStep(V0: map<Id, Vertex>, E0: map<Id, Edge>, done: set<Id>, V: map<Id, Vertex>, E: map<Id, Edge>,
                   G: set<Id>, v: Id, done': set<Id>, V': map<Id, Vertex>, E': map<Id, Edge>)
    requires EdgesFramed(E0, done, V.Keys - V0.Keys, E) && EdgesFramed(E, G, {v}, E')
    requires G <= V0.Keys && v !in V0 && V'.Keys == V.Keys - G + {v} && done' == done + G
    ensures EdgesFramed(E0, done', V'.Keys - V0.Keys, E')
  {
    forall e | e in E'
      ensures (e in E0 && E'[e] == E0[e] && !Touches(E0[e], done')) || Touches(E'[e], V'.Keys - V0.Keys)
    {
      if !Touches(E'[e], {v}) {
        assert e in E && E'[e] == E[e] && !Touches(E[e], G);
      }
    }
  }

  /** The edges inside a group not yet fused, and the self-loops on its members, are as they were. */
  lemma GroupEdgesUntouched(V0: map<Id, Vertex>, E0: map<Id, Edge>, done: set<Id>, V: map<Id, Vertex>,
                            E: map<Id, Edge>, G: set<Id>)
    requires EdgesKept(E0, done, E) && EdgesFramed(E0, done, V.Keys - V0.Keys, E)
    requires G <= V0.Keys && done !! G
    ensures InsideEdges(E, G) == InsideEdges(E0, G) && MemberLoops(E, G) == MemberLoops(E0, G)
  {
    forall e | e in E && E[e].src in G && E[e].dst in G ensures e in E0 && E[e] == E0[e] {
      assert !Touches(E[e], V.Keys - V0.Keys);
    }
  }

  /** The same-key edges once one more group, all of key `t`, is added to vertices of other keys. */
  lemma SameKeyEdgesAdd<K>(E: map<Id, Edge>, key: map<Id, K>, done: set<Id>, G: set<Id>, t: K, done': set<Id>)
    requires done' == done + G
    requires forall x :: x in G ==> x in key && key[x] == t
    requires forall x :: x in done ==> x in key && key[x] != t
    ensures |SameKeyEdges(E, key, done')| == |SameKeyEdges(E, key, done)| + |InsideEdges(E, G)|
  {
    var A, B := SameKeyEdges(E, key, done), InsideEdges(E, G);
    assert SameKeyEdges(E, key, done') == A + B;
    assert A * B == {};
  }

  /** The self-loops on the members of two disjoint sets of vertices. */
  lemma MemberLoopsAdd(E: map<Id, Edge>, A: set<Id>, B: set<Id>, AB: set<Id>)
    requires A !! B && AB == A + B
    ensures |MemberLoops(E, AB)| == |MemberLoops(E, A)| + |MemberLoops(E, B)|
  {
    assert MemberLoops(E, AB) == MemberLoops(E, A) + MemberLoops(E, B);
    assert MemberLoops(E, A) * MemberLoops(E, B) == {};
  }

  /** Every vertex a rule leaves is an old one, as it was, or a new one with the rule's label. */
  lemma RuleLabels(V: map<Id, Vertex>, E: map<Id, Edge>, M: map<Id, Id>, rule: MergeRule,
                   V': map<Id, Vertex>, E': map<Id, Edge>, M': map<Id, Id>)
    requires rule.PropertiesRule? && RuleStep(V, E, M, rule, V', E', M')
    ensures |V'| <= |V|
    ensures forall x :: x in V' ==> (x in V && V'[x] == V[x]) || (x !in V && V'[x].lbl == rule.lbl)
  {
    forall x | x in V' && x !in V ensures V'[x].lbl == rule.lbl {
      var groups := MergeGroups(V, rule);
      var y :| y in MembersOf(groups, groups.Keys) && M'[y] == x;
    }
  }

  /** A rule without candidates is a step that changes nothing. */
  lemma NoCandidatesStep(V: map<Id, Vertex>, E: map<Id, Edge>, M: map<Id, Id>, rule: MergeRule)
    requires rule.PropertiesRule? && Candidates(V, rule) == {}
    ensures RuleStep(V, E, M, rule, V, E, M)
  {
    var groups := MergeGroups(V, rule);
    var merged := MembersOf(groups, groups.Keys);
    NoCandidatesNoGroups(V, rule);
    assert |groups| == 0 && |merged| == 0;
    assert SurvivingVertices(V, groups, merged, V);
    assert MergeImages(V, M, rule.keys, rule.lbl, merged, V, M);
    assert SameKeyEdges(E, TupleMap(V, rule.keys), merged) == {} && MemberLoops(E, merged) == {};
  }

  /** The group loop over the rule's groups, once finished, is one rule step. */
  lemma GroupLoopStep(V0: map<Id, Vertex>, E0: map<Id, Edge>, M0: map<Id, Id>, rule: MergeRule,
                      key: map<Id, KeyTuple>, groups: map<KeyTuple, set<Id>>, n0: Id, fusedOf: map<KeyTuple, Id>,
                      orderOf: map<KeyTuple, seq<Id>>, V: map<Id, Vertex>, E: map<Id, Edge>, M: map<Id, Id>)
    requires rule.PropertiesRule? && Candidates(V0, rule) != {}
    requires groups == MergeGroups(V0, rule) && key == TupleMap(V0, rule.keys)
    requires GroupsShape(V0, key, groups) && forall x :: x in V0 ==> x < n0
    requires GroupLoop(V0, E0, key, groups, M0, n0, rule.lbl, {}, fusedOf, orderOf, V, E, M)
    ensures RuleStep(V0, E0, M0, rule, V, E, M)
    ensures |fusedOf| == |groups|
    ensures forall x :: x in V && x !in V0 ==> n0 <= x
  {
    RuleVerticesStep(V0, E0, key, rule.lbl, groups, M0, n0, fusedOf, orderOf, V, E, M);
    RuleImagesStep(V0, E0, M0, rule, key, groups, n0, fusedOf, orderOf, V, E, M);
    RuleFusedProps(V0, E0, rule.keys, rule.lbl, key, groups, M0, n0, fusedOf, orderOf, V, E, M);
    RuleEdgesStep(V0, E0, key, rule.lbl, groups, M0, n0, fusedOf, orderOf, V, E, M);
  }

  /** Once every group is fused, the edges are as a rule step says. */
  lemma RuleEdgesStep<K>(V0: map<Id, Vertex>, E0: map<Id, Edge>, key: map<Id, K>, lbl: string,
                         groups: map<K, set<Id>>, M0: map<Id, Id>, n0: Id, fusedOf: map<K, Id>,
                         orderOf: map<K, seq<Id>>, V: map<Id, Vertex>, E: map<Id, Edge>, M: map<Id, Id>)
    requires GroupLoop(V0, E0, key, groups, M0, n0, lbl, {}, fusedOf, orderOf, V, E, M)
    ensures EdgesAfter(V0, E0, key, MembersOf(groups, groups.Keys), V, E)
  {
    assert fusedOf.Keys == groups.Keys;
  }

  /** Once every group is fused, exactly the merged vertices are gone, and the count is as a rule step says. */
  lemma RuleVerticesStep<K>(V0: map<Id, Vertex>, E0: map<Id, Edge>, key: map<Id, K>, lbl: string,
                            groups: map<K, set<Id>>, M0: map<Id, Id>, n0: Id, fusedOf: map<K, Id>,
                            orderOf: map<K, seq<Id>>, V: map<Id, Vertex>, E: map<Id, Edge>, M: map<Id, Id>)
    requires GroupLoop(V0, E0, key, groups, M0, n0, lbl, {}, fusedOf, orderOf, V, E, M)
    requires GroupsShape(V0, key, groups)
    ensures SurvivingVertices(V0, groups, MembersOf(groups, groups.Keys), V) && |fusedOf| == |groups|
  {
    RuleOutcome(V0, key, lbl, groups, M0, n0, fusedOf, V, M);
    RuleCount(V0, groups, fusedOf, V);
  }

  /** Once every group is fused, the merge map sends the merged vertices to their images as a rule step says. */
  lemma RuleImagesStep(V0: map<Id, Vertex>, E0: map<Id, Edge>, M0: map<Id, Id>, rule: MergeRule,
                       key: map<Id, KeyTuple>, groups: map<KeyTuple, set<Id>>, n0: Id, fusedOf: map<KeyTuple, Id>,
                       orderOf: map<KeyTuple, seq<Id>>, V: map<Id, Vertex>, E: map<Id, Edge>, M: map<Id, Id>)
    requires rule.PropertiesRule? && key == TupleMap(V0, rule.keys) && GroupsShape(V0, key, groups)
    requires GroupLoop(V0, E0, key, groups, M0, n0, rule.lbl, {}, fusedOf, orderOf, V, E, M)
    requires forall x :: x in V0 ==> x < n0
    ensures MergeImages(V0, M0, rule.keys, rule.lbl, MembersOf(groups, groups.Keys), V, M)
    ensures forall x :: x in V && x !in V0 ==> n0 <= x
  {
    RuleOutcome(V0, key, rule.lbl, groups, M0, n0, fusedOf, V, M);
    var merged := MembersOf(groups, groups.Keys);
    forall x, y | x in merged && y in merged
      ensures M[x] == M[y] <==> TupleOf(V0, rule.keys, x) == TupleOf(V0, rule.keys, y)
    {
      assert key[x] == TupleOf(V0, rule.keys, x) && key[y] == TupleOf(V0, rule.keys, y);
    }
    forall x | x in V && x !in V0 ensures n0 <= x {
      var y :| y in merged && M[y] == x;
    }
  }

  /** One more rule step extends the record of the steps so far. */
  lemma RuleStepsExtend(Vs: seq<map<Id, Vertex>>, Es: seq<map<Id, Edge>>, Ms: seq<map<Id, Id>>,
                        rules: seq<MergeRule>, i: nat, V': map<Id, Vertex>, E': map<Id, Edge>, M': map<Id, Id>)
    requires |Vs| == |Es| == |Ms| == i + 1 && i < |rules| && rules[i].PropertiesRule?
    requires RuleSteps(Vs, Es, Ms, rules, i)
    requires RuleStep(Vs[i], Es[i], Ms[i], rules[i], V', E', M')
    ensures RuleSteps(Vs + [V'], Es + [E'], Ms + [M'], rules, i + 1)
  {
    var Vs', Es', Ms' := Vs + [V'], Es + [E'], Ms + [M'];
    RuleStepSame(Vs[i], Es[i], Ms[i], rules[i], V', E', M', Vs'[i], Es'[i], Ms'[i], Vs'[i + 1], Es'[i + 1], Ms'[i + 1]);
    forall j | 0 <= j < i
      ensures RuleStep(Vs'[j], Es'[j], Ms'[j], rules[j], Vs'[j + 1], Es'[j + 1], Ms'[j + 1])
    {
      RuleStepSame(Vs[j], Es[j], Ms[j], rules[j], Vs[j + 1], Es[j + 1], Ms[j + 1],
                   Vs'[j], Es'[j], Ms'[j], Vs'[j + 1], Es'[j + 1], Ms'[j + 1]);
    }
  }

  lemma RuleStepSame(V1: map<Id, Vertex>, E1: map<Id, Edge>, M1: map<Id, Id>, rule: MergeRule,
                     V1': map<Id, Vertex>, E1': map<Id, Edge>, M1': map<Id, Id>,
                     V2: map<Id, Vertex>, E2: map<Id, Edge>, M2: map<Id, Id>,
                     V2': map<Id, Vertex>, E2': map<Id, Edge>, M2': map<Id, Id>)
    requires rule.PropertiesRule? && RuleStep(V1, E1, M1, rule, V1', E1', M1')
    requires V1 == V2 && E1 == E2 && M1 == M2 && V1' == V2' && E1' == E2' && M1' == M2'
    ensures RuleStep(V2, E2, M2, rule, V2', E2', M2')
  {
  }

  /** Fusing group `t` into `v`, its members listed in `order`, records the properties `v` holds. */
  lemma FusedPropsStep<K>(V0: map<Id, Vertex>, groups: map<K, set<Id>>, lbl: string, fusedOf: map<K, Id>,
                          orderOf: map<K, seq<Id>>, V: map<Id, Vertex>, t: K, v: Id, order: seq<Id>, n0: Id,
                          V': map<Id, Vertex>)
    requires FusedPropsSoFar(V0, groups, lbl, fusedOf, orderOf, V)
    requires t in groups && t !in fusedOf && v !in V
    requires forall u :: u in fusedOf ==> n0 <= fusedOf[u]
    requires forall x :: x in groups[t] ==> x < n0 && x in V && x in V0 && V[x] == V0[x]
    requires Distinct(order) && Members(order) == groups[t]
    requires V' == WithoutVertices(V, groups[t])[v := Vertex(lbl, FusedProps(V, order))]
    ensures FusedPropsSoFar(V0, groups, lbl, fusedOf[t := v], orderOf[t := order], V')
  {
    forall x | x in order ensures PropsOf(V, x) == PropsOf(V0, x) {
      assert x in Members(order);
    }
    FusedPropsSame(V, V0, order);
    var fusedOf', orderOf' := fusedOf[t := v], orderOf[t := order];
    forall u | u in fusedOf'
      ensures && u in groups && u in orderOf' && Distinct(orderOf'[u]) && Members(orderOf'[u]) == groups[u]
              && fusedOf'[u] in V' && V'[fusedOf'[u]] == Vertex(lbl, FusedProps(V0, orderOf'[u]))
    {
      if u != t {
        var w := fusedOf[u];
        assert w in V && w !in groups[t] && w != v;
        assert V'[w] == WithoutVertices(V, groups[t])[w] == V[w];
      }
    }
  }

  /** Once every group is fused, each merged vertex's image holds its group's accumulated properties. */
  lemma RuleFusedProps(V0: map<Id, Vertex>, E0: map<Id, Edge>, keys: seq<string>, lbl: string,
                       key: map<Id, KeyTuple>, groups: map<KeyTuple, set<Id>>, M0: map<Id, Id>, n0: Id,
                       fusedOf: map<KeyTuple, Id>, orderOf: map<KeyTuple, seq<Id>>, V: map<Id, Vertex>,
                       E: map<Id, Edge>, M: map<Id, Id>)
    requires key == TupleMap(V0, keys)
    requires GroupLoop(V0, E0, key, groups, M0, n0, lbl, {}, fusedOf, orderOf, V, E, M)
    ensures FusedImages(V0, keys, groups, V, M)
  {
    assert fusedOf.Keys == groups.Keys;
    forall x | x in MembersOf(groups, groups.Keys)
      ensures && x in V0 && x in M && M[x] in V && TupleOf(V0, keys, x) in groups
              && exists o :: Distinct(o) && Members(o) == groups[TupleOf(V0, keys, x)] && V[M[x]].props == FusedProps(V0, o)
    {
      assert x in MembersOf(groups, fusedOf.Keys);
      var t := key[x];
      assert x in V0 && t == TupleOf(V0, keys, x);
      var o := orderOf[t];
      assert Distinct(o) && Members(o) == groups[t] && V[M[x]].props == FusedProps(V0, o);
    }
  }

  /**
   * The image of a merged vertex holds, for every key, exactly the values the vertices of
   * its group held for that key: fusion loses no value and invents none.
   */
  lemma FusedImageValues(V: map<Id, Vertex>, keys: seq<string>, groups: map<KeyTuple, set<Id>>,
                         V': map<Id, Vertex>, M': map<Id, Id>, x: Id, k: string, val: Value)
    requires FusedImages(V, keys, groups, V', M') && x in MembersOf(groups, groups.Keys)
    ensures x in V && x in M' && M'[x] in V' && TupleOf(V, keys, x) in groups
    ensures (k in V'[M'[x]].props && val in V'[M'[x]].props[k])
        <==> exists y :: y in groups[TupleOf(V, keys, x)] && y in V && Holds(V, y, k, val)
  {
    var group := groups[TupleOf(V, keys, x)];
    var o :| Distinct(o) && Members(o) == group && V'[M'[x]].props == FusedProps(V, o);
    if k in V'[M'[x]].props && val in V'[M'[x]].props[k] {
      FusedOnlyMemberValues(V, o, k, val);
      var i :| 0 <= i < |o| && Holds(V, o[i], k, val);
      assert o[i] in Members(o);
    }
    if exists y :: y in group && y in V && Holds(V, y, k, val) {
      var y :| y in group && y in V && Holds(V, y, k, val);
      assert y in Members(o);
      var i :| 0 <= i < |o| && o[i] == y;
      FusedKeepsValues(V, o, i, k, val);
    }
  }
}
