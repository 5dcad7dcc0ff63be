/**
 * The rule contract the merge engine consumes. A rule names the vertex label it
 * applies to; a properties rule also names an ordered list of property keys whose
 * values, taken together, decide which vertices are duplicates of each other.
 */
module Rules {
  import opened Options
  import opened ElementProperties

  /**
   * A merge rule. `LabelRule` is a rule that is only a MergeRule; `PropertiesRule`
   * is a PropertiesMergeRule. `ownName` is a name the rule supplies itself in place
   * of the default one (None when the rule keeps the interface default).
   */
  datatype MergeRule =
    | LabelRule(lbl: string, ownName: Option<string>)
    | PropertiesRule(lbl: string, keys: seq<string>, ownName: Option<string>)

  const MergeRulePrefix: string := "MergeRule[label="
  const PropertiesRulePrefix: string := "PropertiesMergeRule[label="

  /** The default name of a MergeRule. */
  function DefaultName(lbl: string): (name: string)
    ensures |name| == |MergeRulePrefix| + |lbl| + 1
    ensures name[..|MergeRulePrefix|] == MergeRulePrefix
    ensures name[|MergeRulePrefix|..|name| - 1] == lbl
    ensures name[|name| - 1] == ']'
  {
    MergeRulePrefix + lbl + "]"
  }

  /** Reads the label back out of a default MergeRule name. */
  function LabelOfDefaultName(name: string): string
    requires |name| >= |MergeRulePrefix| + 1
  {
    name[|MergeRulePrefix|..|name| - 1]
  }

  lemma DefaultNameRoundTrip(lbl: string)
    ensures LabelOfDefaultName(DefaultName(lbl)) == lbl
  {
  }

  /** The default name depends on the label alone, and distinct labels give distinct names. */
  lemma DefaultNameInjective(a: string, b: string)
    ensures DefaultName(a) == DefaultName(b) <==> a == b
  {
    if DefaultName(a) == DefaultName(b) {
      DefaultNameRoundTrip(a);
      DefaultNameRoundTrip(b);
    }
  }

  /** The elements of a list joined by ", ", as Java's list printing does. */
  function Join(items: seq<string>): string {
    if |items| == 0 then ""
    else if |items| == 1 then items[0]
    else items[0] + ", " + Join(items[1..])
  }

  /** Java's `List.toString()`: the elements between brackets, separated by ", ". */
  function ListToString(items: seq<string>): (s: string)
    ensures |s| >= 2 && s[0] == '[' && s[|s| - 1] == ']'
  {
    "[" + Join(items) + "]"
  }

  /** The default name of a PropertiesMergeRule. */
  function PropertiesDefaultName(lbl: string, keys: seq<string>): (name: string)
    ensures |name| == |PropertiesRulePrefix| + |lbl| + 12 + |ListToString(keys)| + 1
    ensures name[..|PropertiesRulePrefix|] == PropertiesRulePrefix
    ensures name[|PropertiesRulePrefix|..|PropertiesRulePrefix| + |lbl|] == lbl
    ensures name[|PropertiesRulePrefix| + |lbl|..|PropertiesRulePrefix| + |lbl| + 12] == ",properties="
    ensures name[|PropertiesRulePrefix| + |lbl| + 12..|name| - 1] == ListToString(keys)
    ensures name[|name| - 1] == ']'
  {
    PropertiesRulePrefix + lbl + ",properties=" + ListToString(keys) + "]"
  }

  /** The name a rule reports: its own one if it has one, else the default of its most specific interface. */
  function RuleName(r: MergeRule): (name: string)
    ensures r.ownName.Some? ==> name == r.ownName.value
    ensures r.LabelRule? && r.ownName.None? ==>
      && |name| > |MergeRulePrefix| && name[..|MergeRulePrefix|] == MergeRulePrefix
      && LabelOfDefaultName(name) == r.lbl
    ensures r.PropertiesRule? && r.ownName.None? ==>
      |name| > |PropertiesRulePrefix| && name[..|PropertiesRulePrefix|] == PropertiesRulePrefix
  {
    match r
    case LabelRule(lbl, own) => own.GetOr(DefaultName(lbl))
    case PropertiesRule(lbl, keys, own) => own.GetOr(PropertiesDefaultName(lbl, keys))
  }

  /**
   * The PropertiesMergeRule default replaces the MergeRule one: a properties rule
   * without a name of its own reports the properties default, which is never a
   * MergeRule default name, whatever the labels.
   */
  lemma PropertiesNameOverrides(lbl: string, keys: seq<string>, other: string)
    ensures RuleName(PropertiesRule(lbl, keys, None)) == PropertiesDefaultName(lbl, keys)
    ensures RuleName(PropertiesRule(lbl, keys, None)) != DefaultName(other)
  {
    var p := PropertiesDefaultName(lbl, keys);
    var m := DefaultName(other);
    assert p[0] == 'P' && m[0] == 'M';
  }

  /**
   * The properties default name does not identify a rule: a single key containing ", "
   * prints exactly like two keys.
   */
  lemma PropertiesDefaultNameAmbiguous()
    ensures ["name, sameAs"] != ["name", "sameAs"]
    ensures PropertiesDefaultName("Person", ["name, sameAs"]) == PropertiesDefaultName("Person", ["name", "sameAs"])
  {
    assert Join(["name", "sameAs"]) == "name" + ", " + Join(["sameAs"]);
  }

  /** A vertex's grouping key under a rule: one lookup result per key, in key order. */
  type KeyTuple = seq<Option<seq<Value>>>

  function KeyTupleOf(keys: seq<string>, p: Props): (t: KeyTuple)
    ensures |t| == |keys|
    ensures forall i :: 0 <= i < |keys| ==> t[i] == GetProperty(p, keys[i])
  {
    if keys == [] then [] else [GetProperty(p, keys[0])] + KeyTupleOf(keys[1..], p)
  }

  /** Two elements get the same tuple exactly when they agree on every key the rule names. */
  lemma KeyTupleDependsOnlyOnKeys(keys: seq<string>, p: Props, q: Props)
    ensures KeyTupleOf(keys, p) == KeyTupleOf(keys, q)
        <==> forall k :: k in keys ==> GetProperty(p, k) == GetProperty(q, k)
  {
    var tp, tq := KeyTupleOf(keys, p), KeyTupleOf(keys, q);
    if tp == tq {
      forall k | k in keys ensures GetProperty(p, k) == GetProperty(q, k) {
        var i :| 0 <= i < |keys| && keys[i] == k;
        assert tp[i] == tq[i];
      }
    }
  }

  /** The grouping filter's test: some entry of the tuple is not null. */
  predicate HasNonNull(t: KeyTuple) {
    exists i :: 0 <= i < |t| && t[i].Some?
  }

  /** An element that has every key gets a tuple without null entries, so it passes the filter exactly when there is a key. */
  lemma AllKeysPresent(keys: seq<string>, p: Props)
    requires forall k :: k in keys ==> k in p
    ensures forall i :: 0 <= i < |keys| ==> KeyTupleOf(keys, p)[i] == Some(p[keys[i]])
    ensures HasNonNull(KeyTupleOf(keys, p)) <==> keys != []
  {
    var t := KeyTupleOf(keys, p);
    if keys != [] {
      assert t[0].Some?;
    }
  }
}
