/**
 * Multi-valued element properties and the two helpers the merge engine uses on them:
 * looking up one key, and copying every property of one element onto another.
 * The helpers themselves (ElementUtils) are not part of this model; they are
 * modelled by their observable contract: lookup returns the key's values or nothing,
 * and copying accumulates values per key instead of overwriting them.
 */
module ElementProperties {
  import opened Options

  /** A property value; the store compares values by equality only. */
  type Value = string

  /** Each key holds its values in the order they were added. */
  type Props = map<string, seq<Value>>

  predicate NoDuplicates(s: seq<Value>) {
    forall i, j :: 0 <= i < j < |s| ==> s[i] != s[j]
  }

  /** Every key present holds at least one value, none of them twice. */
  predicate WellFormed(p: Props) {
    forall k :: k in p ==> p[k] != [] && NoDuplicates(p[k])
  }

  /** The values a key holds, empty when the key is absent. */
  function ValuesOf(p: Props, key: string): seq<Value> {
    if key in p then p[key] else []
  }

  /** Property lookup: the key's values, or None when the element does not have the key. */
  function GetProperty(p: Props, key: string): (r: Option<seq<Value>>)
    ensures r.Some? <==> key in p
    ensures r.GetOr([]) == ValuesOf(p, key)
  {
    if key in p then Some(p[key]) else None
  }

  /**
   * Appends to `held`, in order, each value of `incoming` that is not already held.
   * What was held stays in front and unchanged; nothing but held and incoming values appears.
   */
  function AddValues(held: seq<Value>, incoming: seq<Value>): seq<Value>
    decreases |incoming|
  {
    if incoming == [] then held
    else AddValues(if incoming[0] in held then held else held + [incoming[0]], incoming[1..])
  }

  /**
   * What was held stays in front and unchanged, exactly the held and incoming values
   * appear, and no value is added twice.
   */
  lemma {:induction false} AddValuesFacts(held: seq<Value>, incoming: seq<Value>)
    ensures |held| <= |AddValues(held, incoming)| && AddValues(held, incoming)[..|held|] == held
    ensures forall x :: x in AddValues(held, incoming) <==> x in held || x in incoming
    ensures NoDuplicates(held) ==> NoDuplicates(AddValues(held, incoming))
    decreases |incoming|
  {
    if incoming != [] {
      var next := if incoming[0] in held then held else held + [incoming[0]];
      AddValuesFacts(next, incoming[1..]);
      var r := AddValues(held, incoming);
      assert r == AddValues(next, incoming[1..]);
      assert next[..|held|] == held;
      assert r[..|held|] == r[..|next|][..|held|];
      assert incoming == [incoming[0]] + incoming[1..];
      if NoDuplicates(held) && incoming[0] !in held {
        forall i, j | 0 <= i < j < |next| ensures next[i] != next[j] {
          if j == |held| {
            assert next[i] in held;
          }
        }
      }
    }
  }

  /**
   * Copies every property of `from` onto `onto`, accumulating: the values `onto` already
   * holds for a key are kept, in front, and the copied values are added after them.
   */
  function CopyProperties(from: Props, onto: Props): (r: Props)
    ensures r.Keys == from.Keys + onto.Keys
  {
    map k | k in from.Keys + onto.Keys :: AddValues(ValuesOf(onto, k), ValuesOf(from, k))
  }

  /** Copying well-formed properties onto well-formed properties gives well-formed properties. */
  lemma CopyWellFormed(from: Props, onto: Props)
    requires WellFormed(from) && WellFormed(onto)
    ensures WellFormed(CopyProperties(from, onto))
  {
    var r := CopyProperties(from, onto);
    forall k | k in r ensures r[k] != [] && NoDuplicates(r[k]) {
      var held, incoming := ValuesOf(onto, k), ValuesOf(from, k);
      assert r[k] == AddValues(held, incoming);
      AddValuesFacts(held, incoming);
      if k !in onto {
        assert incoming[0] in r[k];
      }
    }
  }

  /** The copy keeps, in front and unchanged, the values the target already held. */
  lemma CopyKeepsPrefix(from: Props, onto: Props, key: string)
    requires key in onto
    ensures key in CopyProperties(from, onto)
    ensures |onto[key]| <= |CopyProperties(from, onto)[key]|
    ensures CopyProperties(from, onto)[key][..|onto[key]|] == onto[key]
  {
    AddValuesFacts(ValuesOf(onto, key), ValuesOf(from, key));
  }

  /** After the copy a key holds exactly the values either side held for it. */
  lemma CopyHoldsExactly(from: Props, onto: Props, key: string, x: Value)
    requires key in CopyProperties(from, onto)
    ensures x in CopyProperties(from, onto)[key] <==> x in ValuesOf(from, key) || x in ValuesOf(onto, key)
  {
    AddValuesFacts(ValuesOf(onto, key), ValuesOf(from, key));
  }

  /** A value held for a key by either side is held for that key after the copy. */
  lemma CopyKeepsValue(from: Props, onto: Props, key: string, x: Value)
    requires (key in from && x in from[key]) || (key in onto && x in onto[key])
    ensures key in CopyProperties(from, onto) && x in CopyProperties(from, onto)[key]
  {
    CopyHoldsExactly(from, onto, key, x);
  }

  /** Adding values none of which is held, and which are themselves distinct, appends them all. */
  lemma {:induction false} AddFreshValues(held: seq<Value>, incoming: seq<Value>)
    requires NoDuplicates(incoming)
    requires forall x :: x in incoming ==> x !in held
    ensures AddValues(held, incoming) == held + incoming
    decreases |incoming|
  {
    if incoming != [] {
      FreshTail(held, incoming);
      AddFreshValues(held + [incoming[0]], incoming[1..]);
    }
  }

  lemma FreshTail(held: seq<Value>, incoming: seq<Value>)
    requires incoming != [] && NoDuplicates(incoming)
    requires forall x :: x in incoming ==> x !in held
    ensures AddValues(held, incoming) == AddValues(held + [incoming[0]], incoming[1..])
    ensures NoDuplicates(incoming[1..])
    ensures forall x :: x in incoming[1..] ==> x !in held + [incoming[0]]
    ensures held + [incoming[0]] + incoming[1..] == held + incoming
  {
    assert incoming[0] !in held;
    DistinctTail(held, incoming);
  }

  lemma DistinctTail(held: seq<Value>, incoming: seq<Value>)
    requires incoming != [] && NoDuplicates(incoming)
    requires forall x :: x in incoming ==> x !in held
    ensures NoDuplicates(incoming[1..])
    ensures forall x :: x in incoming[1..] ==> x !in held + [incoming[0]]
    ensures held + [incoming[0]] + incoming[1..] == held + incoming
  {
    var rest := incoming[1..];
    forall x | x in rest ensures x !in held + [incoming[0]] {
      var j :| 0 <= j < |rest| && rest[j] == x;
      assert incoming[0] != incoming[j + 1];
    }
    forall i, j | 0 <= i < j < |rest| ensures rest[i] != rest[j] {
      assert incoming[i + 1] != incoming[j + 1];
    }
    assert [incoming[0]] + rest == incoming;
  }

  /** Copying well-formed properties onto an element that has none reproduces them exactly. */
  lemma CopyOntoEmpty(p: Props)
    requires WellFormed(p)
    ensures CopyProperties(p, map[]) == p
  {
    var r := CopyProperties(p, map[]);
    forall k | k in p ensures r[k] == p[k] {
      AddFreshValues([], p[k]);
    }
  }
}
