/**
 * The pure stages of applying the rules: keeping only the properties rules, finding
 * a rule's candidate vertices, grouping them by their key tuples and keeping the
 * groups worth merging.
 */
module Grouping {
  import opened Options
  import opened ElementProperties
  import opened Rules
  import opened Graphs
  import opened FusionSpec

  /** The rules that are properties rules, in the order given (the `instanceof` filter). */
  function PropertyRules(rules: seq<MergeRule>): (kept: seq<MergeRule>)
    ensures |kept| <= |rules|
    ensures forall r :: r in kept <==> r in rules && r.PropertiesRule?
  {
    if rules == [] then []
    else (if rules[0].PropertiesRule? then [rules[0]] else []) + PropertyRules(rules[1..])
  }

  /** The filter works list by list, so it keeps the relative order of the rules it keeps. */
  lemma {:induction false} PropertyRulesAppend(a: seq<MergeRule>, b: seq<MergeRule>)
    ensures PropertyRules(a + b) == PropertyRules(a) + PropertyRules(b)
  {
    if a == [] {
      assert a + b == b;
    } else {
      var head := if a[0].PropertiesRule? then [a[0]] else [];
      assert (a + b)[0] == a[0];
      assert (a + b)[1..] == a[1..] + b;
      PropertyRulesAppend(a[1..], b);
      calc {
        PropertyRules(a + b);
        head + PropertyRules(a[1..] + b);
        head + (PropertyRules(a[1..]) + PropertyRules(b));
        (head + PropertyRules(a[1..])) + PropertyRules(b);
        PropertyRules(a) + PropertyRules(b);
      }
    }
  }

  /** A list of properties rules passes the filter whole; a list without one leaves nothing. */
  lemma {:induction false} PropertyRulesAllOrNone(rules: seq<MergeRule>)
    ensures (forall i :: 0 <= i < |rules| ==> rules[i].PropertiesRule?) ==> PropertyRules(rules) == rules
    ensures (forall i :: 0 <= i < |rules| ==> rules[i].LabelRule?) ==> PropertyRules(rules) == []
  {
    if rules != [] {
      PropertyRulesAllOrNone(rules[1..]);
      assert rules == [rules[0]] + rules[1..];
    }
  }

  /** `V().hasLabel(label).has(k1)...has(kn)`: a vertex with the rule's label that has every key. */
  predicate IsCandidate(V: map<Id, Vertex>, rule: MergeRule, x: Id)
    requires rule.PropertiesRule?
  {
    x in V && V[x].lbl == rule.lbl && forall k :: k in rule.keys ==> k in V[x].props
  }

  /** The candidates of a rule: the vertices the traversal lists, in no particular order. */
  function Candidates(V: map<Id, Vertex>, rule: MergeRule): (cands: set<Id>)
    requires rule.PropertiesRule?
    ensures cands <= V.Keys
  {
    set x | x in V && IsCandidate(V, rule, x)
  }

  /** The candidates are exactly the vertices with the rule's label that have every key. */
  lemma CandidatesExactly(V: map<Id, Vertex>, rule: MergeRule)
    requires rule.PropertiesRule?
    ensures forall x :: x in Candidates(V, rule) <==>
      x in V && V[x].lbl == rule.lbl && forall k :: k in rule.keys ==> k in V[x].props
  {
  }

  /** The key tuple of vertex `x` under `keys`. */
  function TupleOf(V: map<Id, Vertex>, keys: seq<string>, x: Id): KeyTuple
    requires x in V
  {
    KeyTupleOf(keys, V[x].props)
  }

  /**
   * A candidate has every key, so its tuple holds the key's values in every entry and
   * is never all null, unless the rule names no keys at all.
   */
  lemma CandidateTuple(V: map<Id, Vertex>, rule: MergeRule, x: Id)
    requires rule.PropertiesRule? && x in Candidates(V, rule)
    ensures forall i :: 0 <= i < |rule.keys| ==> TupleOf(V, rule.keys, x)[i] == Some(V[x].props[rule.keys[i]])
    ensures HasNonNull(TupleOf(V, rule.keys, x)) <==> rule.keys != []
  {
    AllKeysPresent(rule.keys, V[x].props);
  }

  /** The tuples the candidates have. */
  function TuplesOf(V: map<Id, Vertex>, cands: set<Id>, keys: seq<string>): set<KeyTuple>
    requires cands <= V.Keys
  {
    set x | x in cands :: TupleOf(V, keys, x)
  }

  /** `groupingBy(rule::getProperties)`: the candidates grouped by key tuple. */
  function MergeSets(V: map<Id, Vertex>, cands: set<Id>, keys: seq<string>): map<KeyTuple, set<Id>>
    requires cands <= V.Keys
  {
    map t | t in TuplesOf(V, cands, keys) :: set x | x in cands && TupleOf(V, keys, x) == t
  }

  /**
   * The grouping is a partition of the candidates: each candidate lies in the group of
   * its own tuple and in no other, and no group is empty.
   */
  lemma MergeSetsPartition(V: map<Id, Vertex>, cands: set<Id>, keys: seq<string>)
    requires cands <= V.Keys
    ensures var sets := MergeSets(V, cands, keys);
      && (forall x :: x in cands ==> TupleOf(V, keys, x) in sets && x in sets[TupleOf(V, keys, x)])
      && (forall t, x :: t in sets && x in sets[t] ==> x in cands && TupleOf(V, keys, x) == t)
      && (forall t :: t in sets ==> sets[t] != {})
  {
    var sets := MergeSets(V, cands, keys);
    forall t | t in sets ensures sets[t] != {} {
      var x :| x in cands && TupleOf(V, keys, x) == t;
      assert x in sets[t];
    }
  }

  /** The filters on the merge sets: a tuple with some non-null entry, and at least two vertices. */
  function FilteredMergeSets(sets: map<KeyTuple, set<Id>>): (kept: map<KeyTuple, set<Id>>)
    ensures kept.Keys <= sets.Keys && forall t :: t in kept ==> kept[t] == sets[t]
    ensures forall t :: t in sets ==> (t in kept <==> HasNonNull(t) && |sets[t]| >= 2)
  {
    map t | t in sets && HasNonNull(t) && |sets[t]| >= 2 :: sets[t]
  }

  /** The groups a rule merges in graph `V`. */
  function MergeGroups(V: map<Id, Vertex>, rule: MergeRule): (groups: map<KeyTuple, set<Id>>)
    requires rule.PropertiesRule?
  {
    FilteredMergeSets(MergeSets(V, Candidates(V, rule), rule.keys))
  }

  /** The vertices in the groups whose tuples are in `ts`. */
  function MembersOf<K>(sets: map<K, set<Id>>, ts: set<K>): set<Id> {
    set t, x | t in sets && t in ts && x in sets[t] :: x
  }

  /**
   * Each group a rule merges holds candidates that share the group's tuple, which has a
   * non-null entry, and it has two or more of them. Groups never share a vertex.
   */
  lemma MergeGroupsShape(V: map<Id, Vertex>, rule: MergeRule)
    requires rule.PropertiesRule?
    ensures var groups := MergeGroups(V, rule);
      && (forall t, x :: t in groups && x in groups[t] ==> IsCandidate(V, rule, x) && TupleOf(V, rule.keys, x) == t)
      && (forall t :: t in groups ==> HasNonNull(t) && |groups[t]| >= 2)
      && (forall t, u, x :: t in groups && u in groups && x in groups[t] && x in groups[u] ==> t == u)
  {
    MergeSetsPartition(V, Candidates(V, rule), rule.keys);
  }

  /** A vertex a rule merges is a candidate with a non-null tuple that another candidate shares. */
  lemma MergedOnlyDuplicates(V: map<Id, Vertex>, rule: MergeRule, x: Id)
    requires rule.PropertiesRule?
    requires var groups := MergeGroups(V, rule); x in MembersOf(groups, groups.Keys)
    ensures IsCandidate(V, rule, x) && HasNonNull(TupleOf(V, rule.keys, x))
    ensures exists y :: y != x && IsCandidate(V, rule, y) && TupleOf(V, rule.keys, y) == TupleOf(V, rule.keys, x)
  {
    var groups := MergeGroups(V, rule);
    MergeGroupsShape(V, rule);
    var t :| t in groups && x in groups[t];
    assert |groups[t] - {x}| >= 1;
    var y :| y in groups[t] - {x};
    assert IsCandidate(V, rule, y) && TupleOf(V, rule.keys, y) == t;
  }

  /** A candidate with a non-null tuple that another candidate shares is merged by the rule. */
  lemma DuplicatesMerged(V: map<Id, Vertex>, rule: MergeRule, x: Id, y: Id)
    requires rule.PropertiesRule? && IsCandidate(V, rule, x) && HasNonNull(TupleOf(V, rule.keys, x))
    requires y != x && IsCandidate(V, rule, y) && TupleOf(V, rule.keys, y) == TupleOf(V, rule.keys, x)
    ensures var groups := MergeGroups(V, rule); x in MembersOf(groups, groups.Keys)
  {
    var cands := Candidates(V, rule);
    assert x in cands && y in cands;
    var t := TupleOf(V, rule.keys, x);
    SharedTuple(V, cands, rule.keys, x, y);
    var groups := MergeGroups(V, rule);
    assert t in groups && x in groups[t];
  }

  /** Two candidates with the same tuple put two or more vertices in that tuple's group. */
  lemma SharedTuple(V: map<Id, Vertex>, cands: set<Id>, keys: seq<string>, x: Id, y: Id)
    requires cands <= V.Keys && x in cands && y in cands && x != y && TupleOf(V, keys, y) == TupleOf(V, keys, x)
    ensures var sets, t := MergeSets(V, cands, keys), TupleOf(V, keys, x);
      t in sets && x in sets[t] && |sets[t]| >= 2
  {
    var sets, t := MergeSets(V, cands, keys), TupleOf(V, keys, x);
    MergeSetsPartition(V, cands, keys);
    assert {x, y} <= sets[t];
    assert |{x, y}| == 2 by {
      assert {x, y} == {x} + {y} && {x} !! {y};
    }
    SubsetCard({x, y}, sets[t]);
  }

  lemma SubsetCard(a: set<Id>, b: set<Id>)
    requires a <= b
    ensures |a| <= |b|
  {
    assert b == a + (b - a);
  }

  /** The vertices of a group in the order the collector lists them, which is not specified. */
  method MemberList(s: set<Id>) returns (members: seq<Id>)
    ensures |members| == |s| && Members(members) == s && Distinct(members)
  {
    members := [];
    var rest := s;
    while rest != {}
      invariant forall x :: x in s <==> x in members || x in rest
      invariant forall x :: x in members ==> x !in rest
      invariant forall i, j :: 0 <= i < j < |members| ==> members[i] != members[j]
      invariant |members| + |rest| == |s|
      decreases |rest|
    {
      var x :| x in rest;
      members := members + [x];
      rest := rest - {x};
    }
  }
}
