/**
  `AtomicDictionary`: a dictionary object whose reads and writes the source
  serialises on a private reader/writer queue. Taken one call at a time it
  is a map held in a single field that the setter, `merge`, `removeValue`
  and `removeAll` change in place.
*/
module AtomicDictionaries {
  import opened Wrappers

  /** The dictionary a literal `[k0: v0, k1: v1, ...]` builds: the pairs stored in order, so a
      later pair overwrites an earlier one with the same key. */
  function PairsToMap<K(==), V>(elements: seq<(K, V)>): map<K, V>
    decreases |elements|
  {
    if elements == [] then map[]
    else
      var last := elements[|elements| - 1];
      PairsToMap(elements[..|elements| - 1])[last.0 := last.1]
  }

  /** A key is in the literal's dictionary exactly when some pair has it, and its value is the
      value of the last pair with that key. */
  lemma {:induction false} PairsToMapLaterWins<K, V>(elements: seq<(K, V)>)
    ensures forall k :: k in PairsToMap(elements) <==> exists i :: 0 <= i < |elements| && elements[i].0 == k
    ensures forall i :: 0 <= i < |elements| && (forall j :: i < j < |elements| ==> elements[j].0 != elements[i].0) ==>
              PairsToMap(elements)[elements[i].0] == elements[i].1
    decreases |elements|
  {
    if elements != [] {
      var n := |elements|;
      var init := elements[..n - 1];
      var last := elements[n - 1];
      PairsToMapLaterWins(init);
      assert forall i :: 0 <= i < |init| ==> init[i] == elements[i];
      forall k
        ensures k in PairsToMap(elements) <==> exists i :: 0 <= i < n && elements[i].0 == k
      {
        if k == last.0 {
          assert elements[n - 1].0 == k;
        } else if exists i :: 0 <= i < n && elements[i].0 == k {
          var i :| 0 <= i < n && elements[i].0 == k;
          assert init[i].0 == k;
        }
      }
      forall i | 0 <= i < n && (forall j :: i < j < n ==> elements[j].0 != elements[i].0)
        ensures PairsToMap(elements)[elements[i].0] == elements[i].1
      {
        if i < n - 1 {
          assert elements[n - 1].0 != elements[i].0;
          assert init[i] == elements[i];
        }
      }
    }
  }

  class AtomicDictionary<K(==), V(==)> {
    /** The private `dictionary` the queue guards. */
    var dictionary: map<K, V>

    /** `init()`: an empty dictionary. */
    constructor ()
      ensures dictionary == map[]
    {
      dictionary := map[];
    }

    /** `init(_:)`: wraps a copy of the given dictionary. */
    constructor FromMap(d: map<K, V>)
      ensures dictionary == d
    {
      dictionary := d;
    }

    /** `init(dictionaryLiteral:)`: starts empty and stores the pairs one by one, in order. */
    constructor FromLiteral(elements: seq<(K, V)>)
      ensures dictionary == PairsToMap(elements)
    {
      dictionary := map[];
      new;
      var i := 0;
      while i < |elements|
        invariant 0 <= i <= |elements|
        invariant dictionary == PairsToMap(elements[..i])
      {
        var (key, value) := elements[i];
        assert elements[..i + 1][..i] == elements[..i];
        dictionary := dictionary[key := value];
        i := i + 1;
      }
      assert elements[..i] == elements;
    }

    /** The subscript getter: the value stored under `key`, or nil. */
    function Get(key: K): (r: Option<V>)
      reads this
      ensures r.Some? <==> key in dictionary
      ensures r.Some? ==> r.value == dictionary[key]
    {
      if key in dictionary then Some(dictionary[key]) else None
    }

    /** The subscript setter: stores `newValue` under `key`, or removes `key` when it is nil;
        no other key changes. */
    method Set(key: K, newValue: Option<V>)
      modifies this
      ensures Get(key) == newValue
      ensures forall k :: k != key ==> (k in dictionary <==> k in old(dictionary))
      ensures forall k :: k != key && k in dictionary ==> dictionary[k] == old(dictionary)[k]
      ensures dictionary == match newValue
                            case Some(v) => old(dictionary)[key := v]
                            case None => old(dictionary) - {key}
    {
      match newValue
      case Some(v) => dictionary := dictionary[key := v];
      case None => dictionary := dictionary - {key};
    }

    /** `keys`. */
    function Keys(): set<K>
      reads this
    {
      dictionary.Keys
    }

    /** `values`, as the set of stored values. */
    function Values(): set<V>
      reads this
    {
      dictionary.Values
    }

    /** `merge(_:)` with the first value kept: keys that were absent are added with the other
        dictionary's value, and keys already present keep their value. */
    method Merge(other: map<K, V>)
      modifies this
      ensures dictionary.Keys == old(dictionary).Keys + other.Keys
      ensures forall k :: k in old(dictionary) ==> dictionary[k] == old(dictionary)[k]
      ensures forall k :: k in other && k !in old(dictionary) ==> dictionary[k] == other[k]
    {
      dictionary := other + dictionary;
    }

    /** `removeValue(forKey:)`: the previous value, if any; the key is absent afterwards and no
        other key changes. */
    method RemoveValue(key: K) returns (r: Option<V>)
      modifies this
      ensures r == old(Get(key))
      ensures key !in dictionary
      ensures dictionary == old(dictionary) - {key}
    {
      r := Get(key);
      dictionary := dictionary - {key};
    }

    /** `removeAll()`. */
    method RemoveAll()
      modifies this
      ensures dictionary == map[]
      ensures Keys() == {}
    {
      dictionary := map[];
    }

    /** `copy()`: a new dictionary object with the same contents. */
    method Copy() returns (c: AtomicDictionary<K, V>)
      ensures fresh(c)
      ensures c.dictionary == dictionary
    {
      c := new AtomicDictionary.FromMap(dictionary);
    }
  }

  /** `keys` and `values` reflect exactly the current contents. */
  lemma KeysAndValuesExact<K, V>(d: AtomicDictionary<K, V>)
    ensures forall k :: k in d.Keys() <==> d.Get(k).Some?
    ensures forall v :: v in d.Values() <==> exists k :: d.Get(k) == Some(v)
  {
    forall v | v in d.Values() ensures exists k :: d.Get(k) == Some(v) {
      var k :| k in d.dictionary && d.dictionary[k] == v;
      assert d.Get(k) == Some(v);
    }
  }

  /** A copy is independent: writing to the copy leaves the original alone. */
  method CopyThenSet<K(==), V(==)>(d: AtomicDictionary<K, V>, key: K, newValue: Option<V>)
    returns (c: AtomicDictionary<K, V>)
    modifies {}
    ensures fresh(c) && c.Get(key) == newValue
    ensures d.dictionary == old(d.dictionary)
  {
    c := d.Copy();
    c.Set(key, newValue);
  }
}
