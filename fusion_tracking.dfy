/**
 * Book-keeping for the proof that fusing a group re-creates the right edges.
 *
 * Fusing the members `order[0], order[1], ...` runs, for member `k`, an in-edge pass
 * (step `2k`) and then an out-edge pass (step `2k + 1`). Every edge a pass creates is
 * tagged with the original edge it stems from and the pass that made it. The predicate
 * `Tracked` says which tags exist after a given step and what edge each one is; the
 * step lemmas show that each pass keeps it, and `FinalStep` reads the outcome off once
 * the members are dropped.
 */
module FusionTracking {
  import opened ElementProperties
  import opened Graphs
  import opened FusionSpec

  /** The position of `x` in `s` (its first occurrence). */
  function IndexOf(s: seq<Id>, x: Id): (i: nat)
    requires x in s
    ensures i < |s| && s[i] == x
    decreases |s|
  {
    if s[0] == x then 0 else 1 + IndexOf(s[1..], x)
  }

  lemma IndexOfAt(s: seq<Id>, j: nat)
    requires Distinct(s) && j < |s|
    ensures IndexOf(s, s[j]) == j
  {
  }

  /** `a` is handled before `b`: both are members and `a` comes first. */
  predicate Before(order: seq<Id>, a: Id, b: Id) {
    a in order && b in order && IndexOf(order, a) < IndexOf(order, b)
  }

  /** Where `x` leads once the first `k` members are fused into `v`. */
  function ResolvedAt(order: seq<Id>, k: nat, v: Id, x: Id): Id {
    if x in order && IndexOf(order, x) < k then v else x
  }

  /** The fused vertex is new: no member and no endpoint of an original edge. */
  ghost predicate Separate(E0: map<Id, Edge>, order: seq<Id>, v: Id) {
    && v !in order
    && forall e :: e in E0 ==> E0[e].src != v && E0[e].dst != v
  }

  /** The merge map sends every endpoint where fusing the first `k` members leads. */
  ghost predicate Resolves(M: map<Id, Id>, E0: map<Id, Edge>, order: seq<Id>, k: nat, v: Id) {
    && Redirect(M, v) == v
    && forall e :: e in E0 ==>
         Redirect(M, E0[e].src) == ResolvedAt(order, k, v, E0[e].src)
         && Redirect(M, E0[e].dst) == ResolvedAt(order, k, v, E0[e].dst)
  }

  /**
   * The pass that made an edge: the in-edge or out-edge pass copying an original edge,
   * or the pass copying the temporary edge an earlier pass made for it.
   */
  datatype Role = InEdge | OutEdge | InEdgeOfTemp | OutEdgeOfTemp

  datatype Made = Made(edge: Id, role: Role)

  /** Whether the fusion ever makes the edge `t` describes. */
  ghost predicate Occurs(E0: map<Id, Edge>, order: seq<Id>, t: Made) {
    t.edge in E0 &&
    match t.role
    case InEdge => E0[t.edge].dst in order
    case OutEdge => E0[t.edge].src in order
    case InEdgeOfTemp => Before(order, E0[t.edge].src, E0[t.edge].dst)
    case OutEdgeOfTemp => Before(order, E0[t.edge].dst, E0[t.edge].src)
  }

  /** The step that makes it (0 for a tag that never occurs). */
  ghost function Step(E0: map<Id, Edge>, order: seq<Id>, t: Made): nat {
    if t.edge !in E0 then 0
    else
      var e := E0[t.edge];
      match t.role
      case InEdge => if e.dst in order then 2 * IndexOf(order, e.dst) else 0
      case InEdgeOfTemp => if e.dst in order then 2 * IndexOf(order, e.dst) else 0
      case OutEdge => if e.src in order then 2 * IndexOf(order, e.src) + 1 else 0
      case OutEdgeOfTemp => if e.src in order then 2 * IndexOf(order, e.src) + 1 else 0
  }

  ghost predicate MadeBefore(E0: map<Id, Edge>, order: seq<Id>, t: Made, c: nat) {
    Occurs(E0, order, t) && Step(E0, order, t) < c
  }

  /** The edge it is: ends already fused lead to `v`, the others stay where they were. */
  ghost function Shape(E0: map<Id, Edge>, order: seq<Id>, v: Id, t: Made): Edge
    requires t.edge in E0
  {
    var e := E0[t.edge];
    match t.role
    case InEdge => Edge(if Before(order, e.src, e.dst) then v else e.src, e.lbl, v, e.props)
    case OutEdge => Edge(v, e.lbl, if Before(order, e.dst, e.src) then v else e.dst, e.props)
    case InEdgeOfTemp => Edge(v, e.lbl, v, e.props)
    case OutEdgeOfTemp => Edge(v, e.lbl, v, e.props)
  }

  /**
   * After the steps before `c`: the original edges are untouched, and the other edges
   * are, one for one, the edges those steps make.
   */
  ghost predicate Tracked(E0: map<Id, Edge>, order: seq<Id>, v: Id, edges: map<Id, Edge>, origin: map<Id, Made>, c: nat) {
    && edges.Keys == E0.Keys + origin.Keys
    && E0.Keys !! origin.Keys
    && (forall e :: e in E0 ==> edges[e] == E0[e])
    && Injective(origin)
    && (forall n :: n in origin ==> MadeBefore(E0, order, origin[n], c))
    && (forall n :: n in origin ==> edges[n] == Shape(E0, order, v, origin[n]))
    && (forall t :: MadeBefore(E0, order, t, c) ==> t in origin.Values)
  }

  /** Before the first step nothing has been made. */
  lemma TrackedInitially(E0: map<Id, Edge>, order: seq<Id>, v: Id)
    ensures Tracked(E0, order, v, E0, map[], 0)
  {
  }

  /**
   * One step: if the edges added are exactly the edges of step `c`, one for one and
   * each as its tag describes, the book-keeping holds up to step `c + 1`.
   */
  lemma ExtendTracked(E0: map<Id, Edge>, order: seq<Id>, v: Id, edges: map<Id, Edge>, origin: map<Id, Made>, c: nat,
                      N: map<Id, Made>, edges': map<Id, Edge>, next: nat)
    requires next == c + 1
    requires Tracked(E0, order, v, edges, origin, c)
    requires N.Keys !! edges.Keys
    requires edges'.Keys == edges.Keys + N.Keys && forall n :: n in edges ==> edges'[n] == edges[n]
    requires Injective(N)
    requires forall n :: n in N ==>
      Occurs(E0, order, N[n]) && Step(E0, order, N[n]) == c && edges'[n] == Shape(E0, order, v, N[n])
    requires forall t :: Occurs(E0, order, t) && Step(E0, order, t) == c ==> t in N.Values
    ensures Tracked(E0, order, v, edges', origin + N, next)
    ensures forall n :: n in origin + N ==> (n in N <==> Step(E0, order, (origin + N)[n]) == c)
  {
    ExtendInjective(E0, order, origin, c, N);
    ExtendCovers(E0, order, origin, c, N);
    ExtendSteps(E0, order, origin, c, N);
  }

  lemma ExtendInjective(E0: map<Id, Edge>, order: seq<Id>, origin: map<Id, Made>, c: nat, N: map<Id, Made>)
    requires Injective(origin) && Injective(N)
    requires forall n :: n in origin ==> MadeBefore(E0, order, origin[n], c)
    requires forall n :: n in N ==> Occurs(E0, order, N[n]) && Step(E0, order, N[n]) == c
    ensures Injective(origin + N)
  {
    var origin' := origin + N;
    forall a, b | a in origin' && b in origin' && a != b ensures origin'[a] != origin'[b] {
      if a in N && b !in N {
        assert MadeBefore(E0, order, origin[b], c);
      } else if b in N && a !in N {
        assert MadeBefore(E0, order, origin[a], c);
      }
    }
  }

  lemma ExtendCovers(E0: map<Id, Edge>, order: seq<Id>, origin: map<Id, Made>, c: nat, N: map<Id, Made>)
    requires forall t :: MadeBefore(E0, order, t, c) ==> t in origin.Values
    requires forall t :: Occurs(E0, order, t) && Step(E0, order, t) == c ==> t in N.Values
    requires origin.Keys !! N.Keys
    ensures forall t :: MadeBefore(E0, order, t, c + 1) ==> t in (origin + N).Values
  {
    var origin' := origin + N;
    forall t | MadeBefore(E0, order, t, c + 1) ensures t in origin'.Values {
      if Step(E0, order, t) < c {
        assert MadeBefore(E0, order, t, c);
        var x :| x in origin && origin[x] == t;
        assert origin'[x] == t;
      } else {
        var x :| x in N && N[x] == t;
        assert origin'[x] == t;
      }
    }
  }

  lemma ExtendSteps(E0: map<Id, Edge>, order: seq<Id>, origin: map<Id, Made>, c: nat, N: map<Id, Made>)
    requires forall n :: n in origin ==> MadeBefore(E0, order, origin[n], c)
    requires forall n :: n in N ==> Occurs(E0, order, N[n]) && Step(E0, order, N[n]) == c
    ensures forall n :: n in origin + N ==>
      MadeBefore(E0, order, (origin + N)[n], c + 1) && (n in N <==> Step(E0, order, (origin + N)[n]) == c)
  {
    forall n | n in origin + N
      ensures MadeBefore(E0, order, (origin + N)[n], c + 1)
      ensures n in N <==> Step(E0, order, (origin + N)[n]) == c
    {
      if n !in N {
        assert MadeBefore(E0, order, origin[n], c);
      }
    }
  }

  /* ---------- the in-edge pass of member k ---------- */

  /** The tag of the edge the in-edge pass makes from the edge `x` it finds. */
  function InTag(E0: map<Id, Edge>, origin: map<Id, Made>, x: Id): Made {
    if x !in E0 && x in origin then Made(origin[x].edge, InEdgeOfTemp) else Made(x, InEdge)
  }

  /** An edge into member `k` before its in-edge pass: an original one, or the temporary copy of one from an earlier member. */
  lemma InEdgeFound(E0: map<Id, Edge>, order: seq<Id>, v: Id, k: nat, edges: map<Id, Edge>, origin: map<Id, Made>, x: Id)
    requires Distinct(order) && k < |order| && Separate(E0, order, v)
    requires Tracked(E0, order, v, edges, origin, 2 * k)
    requires x in InEdgesOf(edges, order[k])
    ensures x !in E0 ==> x in origin && origin[x].role == OutEdge
    ensures Occurs(E0, order, InTag(E0, origin, x)) && Step(E0, order, InTag(E0, origin, x)) == 2 * k
    ensures x !in E0 ==> edges[x] == Edge(v, E0[origin[x].edge].lbl, order[k], E0[origin[x].edge].props)
  {
    IndexOfAt(order, k);
    if x !in E0 {
      var t := origin[x];
      assert MadeBefore(E0, order, t, 2 * k);
      assert edges[x] == Shape(E0, order, v, t);
    }
  }

  /** The edge the in-edge pass makes is the one its tag describes. */
  lemma InCopyShape(E0: map<Id, Edge>, order: seq<Id>, v: Id, k: nat, edges: map<Id, Edge>, origin: map<Id, Made>, M: map<Id, Id>, x: Id)
    requires Distinct(order) && k < |order| && Separate(E0, order, v)
    requires Tracked(E0, order, v, edges, origin, 2 * k)
    requires Resolves(M, E0, order, k, v)
    requires x in InEdgesOf(edges, order[k])
    ensures InTag(E0, origin, x).edge in E0
    ensures InCopy(edges[x], M, v) == Shape(E0, order, v, InTag(E0, origin, x))
  {
    InEdgeFound(E0, order, v, k, edges, origin, x);
    IndexOfAt(order, k);
  }

  /** The tags the in-edge pass of member `k` gives the edges it makes. */
  function InOrigins(E0: map<Id, Edge>, origin: map<Id, Made>, from: map<Id, Id>): map<Id, Made> {
    map n | n in from :: InTag(E0, origin, from[n])
  }

  lemma InOriginsInjective(E0: map<Id, Edge>, order: seq<Id>, v: Id, k: nat, edges: map<Id, Edge>, origin: map<Id, Made>, from: map<Id, Id>)
    requires Distinct(order) && k < |order| && Separate(E0, order, v)
    requires Tracked(E0, order, v, edges, origin, 2 * k)
    requires Injective(from) && from.Values == InEdgesOf(edges, order[k])
    ensures Injective(InOrigins(E0, origin, from))
  {
    var N := InOrigins(E0, origin, from);
    forall a, b | a in N && b in N && a != b ensures N[a] != N[b] {
      var x, y := from[a], from[b];
      assert x in from.Values && y in from.Values;
      InEdgeFound(E0, order, v, k, edges, origin, x);
      InEdgeFound(E0, order, v, k, edges, origin, y);
    }
  }

  /** Every tag of step `2k` is given to one of the edges the in-edge pass makes. */
  lemma InOriginsCover(E0: map<Id, Edge>, order: seq<Id>, v: Id, k: nat, edges: map<Id, Edge>, origin: map<Id, Made>, from: map<Id, Id>, t: Made)
    requires Distinct(order) && k < |order| && Separate(E0, order, v)
    requires Tracked(E0, order, v, edges, origin, 2 * k)
    requires from.Values == InEdgesOf(edges, order[k])
    requires Occurs(E0, order, t) && Step(E0, order, t) == 2 * k
    ensures t in InOrigins(E0, origin, from).Values
  {
    IndexOfAt(order, k);
    var e := E0[t.edge];
    var x: Id;
    if t.role == InEdge {
      x := t.edge;
    } else {
      assert t.role == InEdgeOfTemp;
      var tmp := Made(t.edge, OutEdge);
      assert MadeBefore(E0, order, tmp, 2 * k);
      assert tmp in origin.Values;
      x :| x in origin && origin[x] == tmp;
      assert edges[x] == Shape(E0, order, v, tmp);
    }
    assert x in InEdgesOf(edges, order[k]);
    var n :| n in from && from[n] == x;
    assert InOrigins(E0, origin, from)[n] == t;
  }

  lemma InOriginsCoverAll(E0: map<Id, Edge>, order: seq<Id>, v: Id, k: nat, edges: map<Id, Edge>, origin: map<Id, Made>, from: map<Id, Id>)
    requires Distinct(order) && k < |order| && Separate(E0, order, v)
    requires Tracked(E0, order, v, edges, origin, 2 * k)
    requires from.Values == InEdgesOf(edges, order[k])
    ensures forall t :: Occurs(E0, order, t) && Step(E0, order, t) == 2 * k ==> t in InOrigins(E0, origin, from).Values
  {
    forall t | Occurs(E0, order, t) && Step(E0, order, t) == 2 * k ensures t in InOrigins(E0, origin, from).Values {
      InOriginsCover(E0, order, v, k, edges, origin, from, t);
    }
  }

  /** The in-edge pass of member `k` keeps the book-keeping, now up to step `2k + 1`. */
  lemma InStep(E0: map<Id, Edge>, order: seq<Id>, v: Id, k: nat, edges: map<Id, Edge>, origin: map<Id, Made>,
               M: map<Id, Id>, from: map<Id, Id>, edges': map<Id, Edge>)
    requires Distinct(order) && k < |order| && Separate(E0, order, v)
    requires Tracked(E0, order, v, edges, origin, 2 * k)
    requires Resolves(M, E0, order, k, v)
    requires from.Keys !! edges.Keys && Injective(from) && from.Values == InEdgesOf(edges, order[k])
    requires edges' == edges + InCopies(edges, from, M, v)
    ensures Tracked(E0, order, v, edges', origin + InOrigins(E0, origin, from), 2 * k + 1)
  {
    InStepFacts(E0, order, v, k, edges, origin, M, from, edges');
    ExtendTracked(E0, order, v, edges, origin, 2 * k, InOrigins(E0, origin, from), edges', 2 * k + 1);
  }

  lemma InStepSkip(E0: map<Id, Edge>, order: seq<Id>, v: Id, k: nat, edges: map<Id, Edge>, origin: map<Id, Made>,
                   M: map<Id, Id>, from: map<Id, Id>, edges': map<Id, Edge>)
    requires Distinct(order) && k < |order| && Separate(E0, order, v)
    requires Tracked(E0, order, v, edges, origin, 2 * k)
    requires Resolves(M, E0, order, k, v)
    requires from.Keys !! edges.Keys && Injective(from) && from.Values == InEdgesOf(edges, order[k])
    requires edges' == edges + InCopies(edges, from, M, v)
    ensures InOrigins(E0, origin, from).Keys == from.Keys
    ensures forall n :: n in origin + InOrigins(E0, origin, from) ==>
      (n in InOrigins(E0, origin, from) <==> Step(E0, order, (origin + InOrigins(E0, origin, from))[n]) == 2 * k)
  {
    InStepFacts(E0, order, v, k, edges, origin, M, from, edges');
    ExtendTracked(E0, order, v, edges, origin, 2 * k, InOrigins(E0, origin, from), edges', 2 * k + 1);
  }

  /** What the in-edge pass adds: the edges and tags of step `2k`, one for one. */
  lemma InStepFacts(E0: map<Id, Edge>, order: seq<Id>, v: Id, k: nat, edges: map<Id, Edge>, origin: map<Id, Made>,
                    M: map<Id, Id>, from: map<Id, Id>, edges': map<Id, Edge>)
    requires Distinct(order) && k < |order| && Separate(E0, order, v)
    requires Tracked(E0, order, v, edges, origin, 2 * k)
    requires Resolves(M, E0, order, k, v)
    requires from.Keys !! edges.Keys && Injective(from) && from.Values == InEdgesOf(edges, order[k])
    requires edges' == edges + InCopies(edges, from, M, v)
    ensures var N := InOrigins(E0, origin, from);
      && N.Keys == from.Keys
      && edges'.Keys == edges.Keys + N.Keys && (forall n :: n in edges ==> edges'[n] == edges[n])
      && Injective(N)
      && (forall n :: n in N ==>
           Occurs(E0, order, N[n]) && Step(E0, order, N[n]) == 2 * k && edges'[n] == Shape(E0, order, v, N[n]))
      && (forall t :: Occurs(E0, order, t) && Step(E0, order, t) == 2 * k ==> t in N.Values)
  {
    InCopiesKeys(edges, order[k], M, from, v, edges');
    InOriginsShape(E0, order, v, k, edges, origin, M, from, edges');
    InOriginsInjective(E0, order, v, k, edges, origin, from);
    InOriginsCoverAll(E0, order, v, k, edges, origin, from);
  }

  /** The in-edge pass adds exactly the edges it numbers and leaves the others as they were. */
  lemma InCopiesKeys(edges: map<Id, Edge>, x: Id, M: map<Id, Id>, from: map<Id, Id>, v: Id, edges': map<Id, Edge>)
    requires from.Keys !! edges.Keys && from.Values == InEdgesOf(edges, x)
    requires edges' == edges + InCopies(edges, from, M, v)
    ensures edges'.Keys == edges.Keys + from.Keys && forall n :: n in edges ==> edges'[n] == edges[n]
  {
    forall n | n in from ensures from[n] in edges {
      assert from[n] in from.Values;
    }
  }

  lemma InOriginsShape(E0: map<Id, Edge>, order: seq<Id>, v: Id, k: nat, edges: map<Id, Edge>, origin: map<Id, Made>,
                       M: map<Id, Id>, from: map<Id, Id>, edges': map<Id, Edge>)
    requires Distinct(order) && k < |order| && Separate(E0, order, v)
    requires Tracked(E0, order, v, edges, origin, 2 * k)
    requires Resolves(M, E0, order, k, v)
    requires from.Keys !! edges.Keys && from.Values == InEdgesOf(edges, order[k])
    requires edges' == edges + InCopies(edges, from, M, v)
    ensures forall n :: n in InOrigins(E0, origin, from) ==>
      var t := InOrigins(E0, origin, from)[n];
      Occurs(E0, order, t) && Step(E0, order, t) == 2 * k && edges'[n] == Shape(E0, order, v, t)
  {
    forall n | n in InOrigins(E0, origin, from)
      ensures var t := InOrigins(E0, origin, from)[n];
        Occurs(E0, order, t) && Step(E0, order, t) == 2 * k && edges'[n] == Shape(E0, order, v, t)
    {
      InOriginShape(E0, order, v, k, edges, origin, M, from, edges', n);
    }
  }

  /** The edge the pass makes as edge `n`, with its tag. */
  lemma InOriginShape(E0: map<Id, Edge>, order: seq<Id>, v: Id, k: nat, edges: map<Id, Edge>, origin: map<Id, Made>,
                       M: map<Id, Id>, from: map<Id, Id>, edges': map<Id, Edge>, n: Id)
    requires Distinct(order) && k < |order| && Separate(E0, order, v)
    requires Tracked(E0, order, v, edges, origin, 2 * k)
    requires Resolves(M, E0, order, k, v)
    requires from.Keys !! edges.Keys && from.Values == InEdgesOf(edges, order[k])
    requires edges' == edges + InCopies(edges, from, M, v)
    requires n in from
    ensures var t := InOrigins(E0, origin, from)[n];
      Occurs(E0, order, t) && Step(E0, order, t) == 2 * k && edges'[n] == Shape(E0, order, v, t)
  {
    assert from[n] in from.Values;
    InEdgeFound(E0, order, v, k, edges, origin, from[n]);
    InCopyShape(E0, order, v, k, edges, origin, M, from[n]);
  }


  /* ---------- the out-edge pass of member k ---------- */

  /** The tag of the edge the out-edge pass makes from the edge `x` it finds. */
  function OutTag(E0: map<Id, Edge>, origin: map<Id, Made>, x: Id): Made {
    if x !in E0 && x in origin then Made(origin[x].edge, OutEdgeOfTemp) else Made(x, OutEdge)
  }

  /**
   * An edge out of member `k` after its in-edge pass, other than one that pass made: an
   * original one, or the temporary copy of one into an earlier member.
   */
  lemma OutEdgeFound(E0: map<Id, Edge>, order: seq<Id>, v: Id, k: nat, edges: map<Id, Edge>, origin: map<Id, Made>,
                     skip: set<Id>, x: Id)
    requires Distinct(order) && k < |order| && Separate(E0, order, v)
    requires Tracked(E0, order, v, edges, origin, 2 * k + 1)
    requires forall n :: n in origin ==> (n in skip <==> Step(E0, order, origin[n]) == 2 * k)
    requires x in OutEdgesOf(edges, order[k]) && x !in skip
    ensures x !in E0 ==> x in origin && origin[x].role == InEdge
    ensures Occurs(E0, order, OutTag(E0, origin, x)) && Step(E0, order, OutTag(E0, origin, x)) == 2 * k + 1
    ensures x !in E0 ==> edges[x] == Edge(order[k], E0[origin[x].edge].lbl, v, E0[origin[x].edge].props)
  {
    IndexOfAt(order, k);
    if x !in E0 {
      var t := origin[x];
      assert MadeBefore(E0, order, t, 2 * k + 1);
      assert edges[x] == Shape(E0, order, v, t);
    }
  }

  lemma OutCopyShape(E0: map<Id, Edge>, order: seq<Id>, v: Id, k: nat, edges: map<Id, Edge>, origin: map<Id, Made>,
                     skip: set<Id>, M: map<Id, Id>, x: Id)
    requires Distinct(order) && k < |order| && Separate(E0, order, v)
    requires Tracked(E0, order, v, edges, origin, 2 * k + 1)
    requires forall n :: n in origin ==> (n in skip <==> Step(E0, order, origin[n]) == 2 * k)
    requires Resolves(M, E0, order, k, v)
    requires x in OutEdgesOf(edges, order[k]) && x !in skip
    ensures OutTag(E0, origin, x).edge in E0
    ensures OutCopy(edges[x], M, v) == Shape(E0, order, v, OutTag(E0, origin, x))
  {
    OutEdgeFound(E0, order, v, k, edges, origin, skip, x);
    IndexOfAt(order, k);
  }

  function OutOrigins(E0: map<Id, Edge>, origin: map<Id, Made>, from: map<Id, Id>): map<Id, Made> {
    map n | n in from :: OutTag(E0, origin, from[n])
  }

  lemma OutOriginsInjective(E0: map<Id, Edge>, order: seq<Id>, v: Id, k: nat, edges: map<Id, Edge>, origin: map<Id, Made>,
                            skip: set<Id>, from: map<Id, Id>)
    requires Distinct(order) && k < |order| && Separate(E0, order, v)
    requires Tracked(E0, order, v, edges, origin, 2 * k + 1)
    requires forall n :: n in origin ==> (n in skip <==> Step(E0, order, origin[n]) == 2 * k)
    requires Injective(from) && from.Values == OutEdgesOf(edges, order[k]) - skip
    ensures Injective(OutOrigins(E0, origin, from))
  {
    var N := OutOrigins(E0, origin, from);
    forall a, b | a in N && b in N && a != b ensures N[a] != N[b] {
      var x, y := from[a], from[b];
      assert x in from.Values && y in from.Values;
      OutEdgeFound(E0, order, v, k, edges, origin, skip, x);
      OutEdgeFound(E0, order, v, k, edges, origin, skip, y);
    }
  }

  lemma OutOriginsCover(E0: map<Id, Edge>, order: seq<Id>, v: Id, k: nat, edges: map<Id, Edge>, origin: map<Id, Made>,
                        skip: set<Id>, from: map<Id, Id>, t: Made)
    requires Distinct(order) && k < |order| && Separate(E0, order, v)
    requires Tracked(E0, order, v, edges, origin, 2 * k + 1)
    requires forall n :: n in origin ==> (n in skip <==> Step(E0, order, origin[n]) == 2 * k)
    requires skip <= origin.Keys
    requires from.Values == OutEdgesOf(edges, order[k]) - skip
    requires Occurs(E0, order, t) && Step(E0, order, t) == 2 * k + 1
    ensures t in OutOrigins(E0, origin, from).Values
  {
    IndexOfAt(order, k);
    var x: Id;
    if t.role == OutEdge {
      x := t.edge;
    } else {
      assert t.role == OutEdgeOfTemp;
      var tmp := Made(t.edge, InEdge);
      assert MadeBefore(E0, order, tmp, 2 * k);
      assert tmp in origin.Values;
      x :| x in origin && origin[x] == tmp;
      assert edges[x] == Shape(E0, order, v, tmp);
    }
    assert x in OutEdgesOf(edges, order[k]) - skip;
    var n :| n in from && from[n] == x;
    assert OutOrigins(E0, origin, from)[n] == t;
  }

  lemma OutOriginsCoverAll(E0: map<Id, Edge>, order: seq<Id>, v: Id, k: nat, edges: map<Id, Edge>, origin: map<Id, Made>,
                           skip: set<Id>, from: map<Id, Id>)
    requires Distinct(order) && k < |order| && Separate(E0, order, v)
    requires Tracked(E0, order, v, edges, origin, 2 * k + 1)
    requires forall n :: n in origin ==> (n in skip <==> Step(E0, order, origin[n]) == 2 * k)
    requires skip <= origin.Keys
    requires from.Values == OutEdgesOf(edges, order[k]) - skip
    ensures forall t :: Occurs(E0, order, t) && Step(E0, order, t) == 2 * k + 1 ==> t in OutOrigins(E0, origin, from).Values
  {
    forall t | Occurs(E0, order, t) && Step(E0, order, t) == 2 * k + 1 ensures t in OutOrigins(E0, origin, from).Values {
      OutOriginsCover(E0, order, v, k, edges, origin, skip, from, t);
    }
  }

  /** The out-edge pass of member `k`, skipping what its in-edge pass made, keeps the book-keeping up to step `2k + 2`. */
  lemma OutStep(E0: map<Id, Edge>, order: seq<Id>, v: Id, k: nat, edges: map<Id, Edge>, origin: map<Id, Made>,
                skip: set<Id>, M: map<Id, Id>, from: map<Id, Id>, edges': map<Id, Edge>)
    requires Distinct(order) && k < |order| && Separate(E0, order, v)
    requires Tracked(E0, order, v, edges, origin, 2 * k + 1)
    requires forall n :: n in origin ==> (n in skip <==> Step(E0, order, origin[n]) == 2 * k)
    requires skip <= origin.Keys
    requires Resolves(M, E0, order, k, v)
    requires from.Keys !! edges.Keys && Injective(from) && from.Values == OutEdgesOf(edges, order[k]) - skip
    requires edges' == edges + OutCopies(edges, from, M, v)
    ensures Tracked(E0, order, v, edges', origin + OutOrigins(E0, origin, from), 2 * k + 2)
  {
    OutStepFacts(E0, order, v, k, edges, origin, skip, M, from, edges');
    ExtendTracked(E0, order, v, edges, origin, 2 * k + 1, OutOrigins(E0, origin, from), edges', 2 * k + 2);
  }

  /** What the out-edge pass adds: the edges and tags of step `2k + 1`, one for one. */
  lemma OutStepFacts(E0: map<Id, Edge>, order: seq<Id>, v: Id, k: nat, edges: map<Id, Edge>, origin: map<Id, Made>,
                     skip: set<Id>, M: map<Id, Id>, from: map<Id, Id>, edges': map<Id, Edge>)
    requires Distinct(order) && k < |order| && Separate(E0, order, v)
    requires Tracked(E0, order, v, edges, origin, 2 * k + 1)
    requires forall n :: n in origin ==> (n in skip <==> Step(E0, order, origin[n]) == 2 * k)
    requires skip <= origin.Keys
    requires Resolves(M, E0, order, k, v)
    requires from.Keys !! edges.Keys && Injective(from) && from.Values == OutEdgesOf(edges, order[k]) - skip
    requires edges' == edges + OutCopies(edges, from, M, v)
    ensures var N := OutOrigins(E0, origin, from);
      && edges'.Keys == edges.Keys + N.Keys && (forall n :: n in edges ==> edges'[n] == edges[n])
      && Injective(N)
      && (forall n :: n in N ==>
           Occurs(E0, order, N[n]) && Step(E0, order, N[n]) == 2 * k + 1 && edges'[n] == Shape(E0, order, v, N[n]))
      && (forall t :: Occurs(E0, order, t) && Step(E0, order, t) == 2 * k + 1 ==> t in N.Values)
  {
    OutCopiesKeys(edges, order[k], skip, M, from, v, edges');
    OutOriginsShape(E0, order, v, k, edges, origin, skip, M, from, edges');
    OutOriginsInjective(E0, order, v, k, edges, origin, skip, from);
    OutOriginsCoverAll(E0, order, v, k, edges, origin, skip, from);
  }

  /** The out-edge pass adds exactly the edges it numbers and leaves the others as they were. */
  lemma OutCopiesKeys(edges: map<Id, Edge>, x: Id, skip: set<Id>, M: map<Id, Id>, from: map<Id, Id>, v: Id, edges': map<Id, Edge>)
    requires from.Keys !! edges.Keys && from.Values == OutEdgesOf(edges, x) - skip
    requires edges' == edges + OutCopies(edges, from, M, v)
    ensures edges'.Keys == edges.Keys + from.Keys && forall n :: n in edges ==> edges'[n] == edges[n]
  {
    forall n | n in from ensures from[n] in edges {
      assert from[n] in from.Values;
    }
  }

  lemma OutOriginsShape(E0: map<Id, Edge>, order: seq<Id>, v: Id, k: nat, edges: map<Id, Edge>, origin: map<Id, Made>,
                        skip: set<Id>, M: map<Id, Id>, from: map<Id, Id>, edges': map<Id, Edge>)
    requires Distinct(order) && k < |order| && Separate(E0, order, v)
    requires Tracked(E0, order, v, edges, origin, 2 * k + 1)
    requires forall n :: n in origin ==> (n in skip <==> Step(E0, order, origin[n]) == 2 * k)
    requires Resolves(M, E0, order, k, v)
    requires from.Keys !! edges.Keys && from.Values == OutEdgesOf(edges, order[k]) - skip
    requires edges' == edges + OutCopies(edges, from, M, v)
    ensures forall n :: n in OutOrigins(E0, origin, from) ==>
      var t := OutOrigins(E0, origin, from)[n];
      Occurs(E0, order, t) && Step(E0, order, t) == 2 * k + 1 && edges'[n] == Shape(E0, order, v, t)
  {
    forall n | n in OutOrigins(E0, origin, from)
      ensures var t := OutOrigins(E0, origin, from)[n];
        Occurs(E0, order, t) && Step(E0, order, t) == 2 * k + 1 && edges'[n] == Shape(E0, order, v, t)
    {
      OutOriginShape(E0, order, v, k, edges, origin, skip, M, from, edges', n);
    }
  }

  /** The edge the pass makes as edge `n`, with its tag. */
  lemma OutOriginShape(E0: map<Id, Edge>, order: seq<Id>, v: Id, k: nat, edges: map<Id, Edge>, origin: map<Id, Made>,
                        skip: set<Id>, M: map<Id, Id>, from: map<Id, Id>, edges': map<Id, Edge>, n: Id)
    requires Distinct(order) && k < |order| && Separate(E0, order, v)
    requires Tracked(E0, order, v, edges, origin, 2 * k + 1)
    requires forall n :: n in origin ==> (n in skip <==> Step(E0, order, origin[n]) == 2 * k)
    requires Resolves(M, E0, order, k, v)
    requires from.Keys !! edges.Keys && from.Values == OutEdgesOf(edges, order[k]) - skip
    requires edges' == edges + OutCopies(edges, from, M, v)
    requires n in from
    ensures var t := OutOrigins(E0, origin, from)[n];
      Occurs(E0, order, t) && Step(E0, order, t) == 2 * k + 1 && edges'[n] == Shape(E0, order, v, t)
  {
    assert from[n] in from.Values;
    OutEdgeFound(E0, order, v, k, edges, origin, skip, from[n]);
    OutCopyShape(E0, order, v, k, edges, origin, skip, M, from[n]);
  }


  /* ---------- after the last member: dropping the members ---------- */

  /** The tag a made edge that survives the drop ends up with. */
  function Final(t: Made): CopyTag {
    match t.role
    case InEdge => Copy(t.edge)
    case OutEdge => Copy(t.edge)
    case InEdgeOfTemp => TempCopy(t.edge)
    case OutEdgeOfTemp => TempCopy(t.edge)
  }

  /** The made edges that survive the drop, with their final tags. */
  ghost function FinalTags(origin: map<Id, Made>, survivors: map<Id, Edge>): map<Id, CopyTag> {
    map n | n in origin && n in survivors :: Final(origin[n])
  }

  /** Whether the edge `t` describes escapes the drop of the members. */
  ghost predicate Survives(E0: map<Id, Edge>, order: seq<Id>, v: Id, t: Made)
    requires t.edge in E0
  {
    Shape(E0, order, v, t).src !in order && Shape(E0, order, v, t).dst !in order
  }

  /** Which made edges survive, and that a survivor is its original edge redirected to `v`. */
  lemma SurvivorShape(E0: map<Id, Edge>, order: seq<Id>, v: Id, t: Made)
    requires Separate(E0, order, v) && Occurs(E0, order, t)
    ensures var e := E0[t.edge];
      Survives(E0, order, v, t) <==>
        match t.role
        case InEdge => e.src !in order || Before(order, e.src, e.dst)
        case OutEdge => e.dst !in order || Before(order, e.dst, e.src)
        case InEdgeOfTemp => true
        case OutEdgeOfTemp => true
    ensures Survives(E0, order, v, t) ==> Shape(E0, order, v, t) == RedirectEdge(E0[t.edge], Members(order), v)
  {
  }

  /** All the tags that ever occur were made by the last step. */
  lemma AllMade(E0: map<Id, Edge>, order: seq<Id>, v: Id, edges: map<Id, Edge>, origin: map<Id, Made>, t: Made)
    requires Tracked(E0, order, v, edges, origin, 2 * |order|)
    requires Occurs(E0, order, t)
    ensures t in origin.Values
  {
    assert MadeBefore(E0, order, t, 2 * |order|);
  }

  lemma FinalInjective(E0: map<Id, Edge>, order: seq<Id>, v: Id, edges: map<Id, Edge>, origin: map<Id, Made>)
    requires Distinct(order) && Separate(E0, order, v)
    requires Tracked(E0, order, v, edges, origin, 2 * |order|)
    ensures Injective(FinalTags(origin, WithoutIncidentEdges(edges, Members(order))))
  {
    var fin := FinalTags(origin, WithoutIncidentEdges(edges, Members(order)));
    forall a, b | a in fin && b in fin && a != b ensures fin[a] != fin[b] {
      var ta, tb := origin[a], origin[b];
      assert MadeBefore(E0, order, ta, 2 * |order|) && MadeBefore(E0, order, tb, 2 * |order|);
      assert Survives(E0, order, v, ta) && Survives(E0, order, v, tb);
      SurvivorShape(E0, order, v, ta);
      SurvivorShape(E0, order, v, tb);
      assert ta != tb;
    }
  }

  /** A survivor's final tag names a surviving original edge. */
  lemma FinalTagSurvives(E0: map<Id, Edge>, order: seq<Id>, v: Id, t: Made)
    requires Distinct(order) && Separate(E0, order, v)
    requires Occurs(E0, order, t) && Survives(E0, order, v, t)
    ensures Final(t) in SurvivorTags(E0, Members(order))
  {
    SurvivorShape(E0, order, v, t);
    var e := E0[t.edge];
    if t.role == InEdge || t.role == OutEdge {
      assert t.edge in TouchingEdges(E0, Members(order));
    } else {
      assert t.edge in InsideEdges(E0, Members(order));
    }
  }

  /** Every surviving original edge is named by the final tag of a made edge that survives. */
  lemma SurvivorTagMade(E0: map<Id, Edge>, order: seq<Id>, v: Id, c: CopyTag)
    requires Distinct(order) && Separate(E0, order, v)
    requires c in SurvivorTags(E0, Members(order))
    ensures exists t :: Occurs(E0, order, t) && Survives(E0, order, v, t) && Final(t) == c
  {
    var G := Members(order);
    var e := E0[c.edge];
    var t: Made;
    if c.Copy? {
      assert c.edge in TouchingEdges(E0, G);
      if e.dst in order && (e.src !in order || Before(order, e.src, e.dst)) {
        t := Made(c.edge, InEdge);
      } else {
        t := Made(c.edge, OutEdge);
      }
    } else {
      assert c.edge in InsideEdges(E0, G);
      if Before(order, e.src, e.dst) {
        t := Made(c.edge, InEdgeOfTemp);
      } else {
        t := Made(c.edge, OutEdgeOfTemp);
      }
    }
    SurvivorShape(E0, order, v, t);
    assert Occurs(E0, order, t) && Survives(E0, order, v, t) && Final(t) == c;
  }

  lemma FinalValues(E0: map<Id, Edge>, order: seq<Id>, v: Id, edges: map<Id, Edge>, origin: map<Id, Made>)
    requires Distinct(order) && Separate(E0, order, v)
    requires Tracked(E0, order, v, edges, origin, 2 * |order|)
    ensures FinalTags(origin, WithoutIncidentEdges(edges, Members(order))).Values == SurvivorTags(E0, Members(order))
  {
    var survivors := WithoutIncidentEdges(edges, Members(order));
    var fin := FinalTags(origin, survivors);
    forall c | c in fin.Values ensures c in SurvivorTags(E0, Members(order)) {
      var n :| n in fin && fin[n] == c;
      assert MadeBefore(E0, order, origin[n], 2 * |order|);
      FinalTagSurvives(E0, order, v, origin[n]);
    }
    forall c | c in SurvivorTags(E0, Members(order)) ensures c in fin.Values {
      SurvivorTagMade(E0, order, v, c);
      var t :| Occurs(E0, order, t) && Survives(E0, order, v, t) && Final(t) == c;
      AllMade(E0, order, v, edges, origin, t);
      var n :| n in origin && origin[n] == t;
      assert n in survivors;
      assert fin[n] == c;
    }
  }

  lemma FinalEdges(E0: map<Id, Edge>, order: seq<Id>, v: Id, edges: map<Id, Edge>, origin: map<Id, Made>)
    requires Distinct(order) && Separate(E0, order, v)
    requires Tracked(E0, order, v, edges, origin, 2 * |order|)
    ensures var G := Members(order);
      WithoutIncidentEdges(edges, G)
        == WithoutIncidentEdges(E0, G) + RedirectedCopies(E0, G, v, FinalTags(origin, WithoutIncidentEdges(edges, G)))
    ensures var G := Members(order);
      WithoutIncidentEdges(E0, G).Keys !! FinalTags(origin, WithoutIncidentEdges(edges, G)).Keys
  {
    var G := Members(order);
    var survivors := WithoutIncidentEdges(edges, G);
    var fin := FinalTags(origin, survivors);
    var R := WithoutIncidentEdges(E0, G) + RedirectedCopies(E0, G, v, fin);
    forall n | n in fin ensures fin[n].edge in E0 && survivors[n] == RedirectEdge(E0[fin[n].edge], G, v) {
      assert MadeBefore(E0, order, origin[n], 2 * |order|);
      SurvivorShape(E0, order, v, origin[n]);
    }
    assert survivors.Keys == R.Keys;
  }

  /**
   * After the last member, dropping the members leaves the original edges that miss the
   * group and, one for one, a redirected copy for each surviving tag.
   */
  lemma FinalStep(E0: map<Id, Edge>, order: seq<Id>, v: Id, edges: map<Id, Edge>, origin: map<Id, Made>)
    requires Distinct(order) && Separate(E0, order, v)
    requires Tracked(E0, order, v, edges, origin, 2 * |order|)
    ensures var G := Members(order);
      var fin := FinalTags(origin, WithoutIncidentEdges(edges, G));
      && WithoutIncidentEdges(edges, G) == WithoutIncidentEdges(E0, G) + RedirectedCopies(E0, G, v, fin)
      && WithoutIncidentEdges(E0, G).Keys !! fin.Keys
      && Injective(fin) && fin.Values == SurvivorTags(E0, G)
  {
    FinalEdges(E0, order, v, edges, origin);
    FinalInjective(E0, order, v, edges, origin);
    FinalValues(E0, order, v, edges, origin);
  }
}
