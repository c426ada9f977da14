/** `Layout`: named slots holding root descriptors, filled from key/value pairs where
    a later pair for a key overwrites an earlier one. */
module Layouts {
  import opened Common
  import opened Builder

  /** What a slot holds; null is allowed as a value. */
  type Slot = RenderFragmentGen?

  /** The value of the last pair for `key`, or None when no pair names it. */
  function LastValue(pairs: seq<(string, Slot)>, key: string): Option<Slot>
  {
    if pairs == [] then None
    else if pairs[|pairs| - 1].0 == key then Some(pairs[|pairs| - 1].1)
    else LastValue(pairs[..|pairs| - 1], key)
  }

  /** The dictionary after `map[key] = val` for each pair, in order. */
  function Assign(m: map<string, Slot>, pairs: seq<(string, Slot)>): map<string, Slot>
  {
    if pairs == [] then m
    else
      var last := pairs[|pairs| - 1];
      Assign(m, pairs[..|pairs| - 1])[last.0 := last.1]
  }

  /** After the assignments, a key named by some pair holds the value of its last
      pair; every other key keeps what it had, and no key appears from nowhere. */
  lemma {:induction false} AssignLastWins(m: map<string, Slot>, pairs: seq<(string, Slot)>, key: string)
    ensures key in Assign(m, pairs) <==> key in m || LastValue(pairs, key).Some?
    ensures LastValue(pairs, key).Some? ==> Assign(m, pairs)[key] == LastValue(pairs, key).value
    ensures LastValue(pairs, key).None? && key in m ==> Assign(m, pairs)[key] == m[key]
  {
    if pairs != [] {
      AssignLastWins(m, pairs[..|pairs| - 1], key);
    }
  }

  /** LastValue finds exactly the last pair that names the key. */
  lemma {:induction false} LastValueIsLastOccurrence(pairs: seq<(string, Slot)>, key: string)
    ensures LastValue(pairs, key).None? <==> forall i :: 0 <= i < |pairs| ==> pairs[i].0 != key
    ensures LastValue(pairs, key).Some? ==>
      exists i :: 0 <= i < |pairs| && pairs[i] == (key, LastValue(pairs, key).value)
        && forall j :: i < j < |pairs| ==> pairs[j].0 != key
  {
    if pairs != [] {
      var n := |pairs| - 1;
      var front := pairs[..n];
      LastValueIsLastOccurrence(front, key);
      if pairs[n].0 != key {
        assert forall i :: 0 <= i < n ==> front[i] == pairs[i];
        if LastValue(front, key).Some? {
          var i :| 0 <= i < n && front[i] == (key, LastValue(front, key).value)
            && forall j :: i < j < n ==> front[j].0 != key;
          assert pairs[i] == (key, LastValue(pairs, key).value);
        }
      }
    }
  }

  /** The indexer's getter: the dictionary lookup, which throws for an absent key. */
  function Lookup(m: map<string, Slot>, key: string): (r: Result<Slot>)
    ensures r.Err? <==> key !in m
    ensures r.Err? ==> r.error == KeyNotFound
    ensures r.Ok? ==> r.value == m[key]
  {
    if key in m then Ok(m[key]) else Err(KeyNotFound)
  }

  class Layout {
    /** LayoutMap. */
    var layoutMap: map<string, Slot>

    /** Layout(fragments): SetLayout on an empty dictionary. */
    constructor (fragments: seq<(string, Slot)>)
      ensures layoutMap == Assign(map[], fragments)
    {
      layoutMap := map[];
      new;
      var self := SetLayout(fragments);
    }

    /** SetLayout(fragments): assigns each pair in order and returns the layout. */
    method SetLayout(fragments: seq<(string, Slot)>) returns (self: Layout)
      modifies this`layoutMap
      ensures self == this
      ensures layoutMap == Assign(old(layoutMap), fragments)
    {
      var k := 0;
      while k < |fragments|
        invariant 0 <= k <= |fragments|
        invariant layoutMap == Assign(old(layoutMap), fragments[..k])
      {
        assert fragments[..k + 1][..k] == fragments[..k];
        layoutMap := layoutMap[fragments[k].0 := fragments[k].1];
        k := k + 1;
      }
      assert fragments[..k] == fragments;
      return this;
    }

    /** `this[key]` read. */
    function Get(key: string): (r: Result<Slot>)
      reads this
      ensures r == Lookup(layoutMap, key)
    {
      Lookup(layoutMap, key)
    }

    /** `this[key] = value`. */
    method Set(key: string, value: Slot)
      modifies this`layoutMap
      ensures layoutMap == old(layoutMap)[key := value]
    {
      layoutMap := layoutMap[key := value];
    }
  }

  /** Reading a slot right after writing it gives what was written, and the other
      slots read as before. */
  lemma StoreThenLookup(m: map<string, Slot>, key: string, value: Slot, other: string)
    requires other != key
    ensures Lookup(m[key := value], key) == Ok(value)
    ensures Lookup(m[key := value], other) == Lookup(m, other)
  {
  }

  /** A layout built from pairs reads each named key as its last pair and throws for
      any other key. */
  method BuildAndRead(fragments: seq<(string, Slot)>, key: string) returns (r: Result<Slot>)
    ensures LastValue(fragments, key).Some? ==> r == Ok(LastValue(fragments, key).value)
    ensures LastValue(fragments, key).None? ==> r == Err(KeyNotFound)
  {
    var layout := new Layout(fragments);
    AssignLastWins(map[], fragments, key);
    r := layout.Get(key);
  }
}
