/** `ArrayMap` (getInvalidUrlsFromTern.js:14-41): a JavaScript `Map` from
    keys to lists of values, where adding to a present key appends to its
    list. */
module ArrayMaps {
  import opened Text

  /** The JavaScript values the URL check stores: `undefined`, strings and
      arrays of strings. An array is an object; `ref` stands for its
      identity, so that two arrays are the same `Map` key only when they are
      the same object. */
  datatype Value = Undefined | Str(s: string) | Arr(ref: nat, items: seq<string>)

  /** The contents of a map: its keys in insertion order and the list of
      each. */
  datatype Store = Store(keys: seq<Value>, lists: map<Value, seq<Value>>)

  const Empty: Store := Store([], map[])

  predicate Distinct(ks: seq<Value>) {
    forall i, j :: 0 <= i < j < |ks| ==> ks[i] != ks[j]
  }

  ghost predicate WellFormed(st: Store) {
    Distinct(st.keys) && forall k :: k in st.lists <==> k in st.keys
  }

  /** Lines 25-28: an array key of two or more elements given without a
      value becomes its first element, with the rest of the array (a new
      array) as the value. */
  function Normalize(key: Value, value: Value): (Value, Value) {
    if key.Arr? && |key.items| >= 2 && value.Undefined? then (Str(key.items[0]), Arr(key.ref, key.items[1..]))
    else (key, value)
  }

  /** Lines 24-32: the value goes at the end of its key's list; an absent
      key is added last with a list of just that value. No other key
      changes. */
  function Added(st: Store, key: Value, value: Value): (r: Store)
    ensures var (k, v) := Normalize(key, value);
      k in r.lists && r.lists[k] == (if k in st.lists then st.lists[k] else []) + [v] &&
      r.keys == (if k in st.lists then st.keys else st.keys + [k]) &&
      forall o :: o != k ==> (o in r.lists <==> o in st.lists) && (o in st.lists ==> r.lists[o] == st.lists[o])
  {
    var (k, v) := Normalize(key, value);
    if k in st.lists then Store(st.keys, st.lists[k := st.lists[k] + [v]])
    else Store(st.keys + [k], st.lists[k := [v]])
  }

  lemma AddedWellFormed(st: Store, key: Value, value: Value)
    requires WellFormed(st)
    ensures WellFormed(Added(st, key, value))
  {
    var (k, v) := Normalize(key, value);
    var r := Added(st, key, value);
    if k !in st.lists {
      forall i, j | 0 <= i < j < |r.keys| ensures r.keys[i] != r.keys[j] {
        if j == |st.keys| { assert r.keys[i] == st.keys[i]; }
      }
    }
  }

  /** Lines 15-22: the constructor adds the elements one by one, each without
      a value. */
  function AddedAll(st: Store, xs: seq<Value>): Store
    decreases |xs|
  {
    if xs == [] then st else Added(AddedAll(st, xs[..|xs| - 1]), xs[|xs| - 1], Undefined)
  }

  /** The key an element of the constructor's iterable is stored under. */
  function KeyOf(x: Value): Value {
    Normalize(x, Undefined).0
  }

  /** The values stored for `k` by the elements of `xs`, in order. */
  function ValuesFor(xs: seq<Value>, k: Value): seq<Value>
    decreases |xs|
  {
    if xs == [] then []
    else
      var (key, v) := Normalize(xs[|xs| - 1], Undefined);
      ValuesFor(xs[..|xs| - 1], k) + (if key == k then [v] else [])
  }

  /** Built from an iterable, each key holds the values of exactly the
      elements stored under it, in iteration order. */
  lemma {:induction false} AddedAllLists(xs: seq<Value>)
    decreases |xs|
    ensures WellFormed(AddedAll(Empty, xs))
    ensures forall k :: k in AddedAll(Empty, xs).lists <==> ValuesFor(xs, k) != []
    ensures forall k :: k in AddedAll(Empty, xs).lists ==> AddedAll(Empty, xs).lists[k] == ValuesFor(xs, k)
  {
    if xs != [] {
      var init := xs[..|xs| - 1];
      AddedAllLists(init);
      AddedWellFormed(AddedAll(Empty, init), xs[|xs| - 1], Undefined);
    }
  }

  /** A key holds values exactly when some element is stored under it. */
  lemma {:induction false} StoredKeys(xs: seq<Value>, k: Value)
    decreases |xs|
    ensures ValuesFor(xs, k) != [] <==> exists i :: 0 <= i < |xs| && KeyOf(xs[i]) == k
  {
    if xs != [] {
      var init := xs[..|xs| - 1];
      StoredKeys(init, k);
      if exists i :: 0 <= i < |init| && KeyOf(init[i]) == k {
        var i :| 0 <= i < |init| && KeyOf(init[i]) == k;
        assert xs[i] == init[i];
      }
      if exists i :: 0 <= i < |xs| && KeyOf(xs[i]) == k {
        var i :| 0 <= i < |xs| && KeyOf(xs[i]) == k;
        if i < |init| { assert init[i] == xs[i]; }
      }
    }
  }

  /** The number of values stored under `keys`. */
  function Total(keys: seq<Value>, lists: map<Value, seq<Value>>): nat
    requires forall k :: k in keys ==> k in lists
    decreases |keys|
  {
    if keys == [] then 0 else Total(keys[..|keys| - 1], lists) + |lists[keys[|keys| - 1]]|
  }

  lemma {:induction false} TotalAgree(keys: seq<Value>, l1: map<Value, seq<Value>>, l2: map<Value, seq<Value>>)
    requires forall k :: k in keys ==> k in l1 && k in l2 && |l1[k]| == |l2[k]|
    decreases |keys|
    ensures Total(keys, l1) == Total(keys, l2)
  {
    if keys != [] {
      TotalAgree(keys[..|keys| - 1], l1, l2);
    }
  }

  /** One more value under a key that occurs in `keys` once adds one. */
  lemma {:induction false} TotalBump(keys: seq<Value>, lists: map<Value, seq<Value>>, k: Value, v: Value)
    requires Distinct(keys) && k in keys && forall o :: o in keys ==> o in lists
    decreases |keys|
    ensures Total(keys, lists[k := lists[k] + [v]]) == Total(keys, lists) + 1
  {
    var init := keys[..|keys| - 1];
    var last := keys[|keys| - 1];
    var bumped := lists[k := lists[k] + [v]];
    if last == k {
      assert k !in init by {
        forall i | 0 <= i < |init| ensures init[i] != k { assert init[i] == keys[i]; }
      }
      TotalAgree(init, bumped, lists);
    } else {
      assert k in init by {
        var i :| 0 <= i < |keys| && keys[i] == k;
        assert init[i] == k;
      }
      TotalBump(init, lists, k, v);
    }
  }

  /** A key added last adds its values. */
  lemma TotalAppend(keys: seq<Value>, lists: map<Value, seq<Value>>, k: Value)
    requires forall o :: o in keys ==> o in lists
    requires k in lists
    ensures Total(keys + [k], lists) == Total(keys, lists) + |lists[k]|
  {
    assert (keys + [k])[..|keys|] == keys;
  }

  /** A new key with a one-value list adds one. */
  lemma TotalNew(keys: seq<Value>, lists: map<Value, seq<Value>>, k: Value, v: Value)
    requires forall o :: o in keys ==> o in lists
    requires k !in keys
    ensures Total(keys + [k], lists[k := [v]]) == Total(keys, lists) + 1
  {
    var l := lists[k := [v]];
    TotalAppend(keys, l, k);
    TotalAgree(keys, l, lists);
  }

  lemma AddedTotal(st: Store, key: Value, value: Value)
    requires WellFormed(st)
    ensures var r := Added(st, key, value);
      (forall k :: k in r.keys ==> k in r.lists) && Total(r.keys, r.lists) == Total(st.keys, st.lists) + 1
  {
    var (k, v) := Normalize(key, value);
    AddedWellFormed(st, key, value);
    if k in st.lists {
      assert Added(st, key, value) == Store(st.keys, st.lists[k := st.lists[k] + [v]]);
      TotalBump(st.keys, st.lists, k, v);
    } else {
      assert Added(st, key, value) == Store(st.keys + [k], st.lists[k := [v]]);
      TotalNew(st.keys, st.lists, k, v);
    }
  }

  /** Every element of the iterable is stored exactly once. */
  lemma {:induction false} AddedAllTotal(xs: seq<Value>)
    decreases |xs|
    ensures var st := AddedAll(Empty, xs);
      (forall k :: k in st.keys ==> k in st.lists) && Total(st.keys, st.lists) == |xs|
  {
    if xs != [] {
      var init := xs[..|xs| - 1];
      AddedAllTotal(init);
      AddedAllLists(init);
      AddedTotal(AddedAll(Empty, init), xs[|xs| - 1], Undefined);
    }
  }

  // ---------------------------------------------------------------------
  // toObject (lines 34-40).

  /** The property name of a key: `String(key)`, arrays joined by commas. */
  function PropertyName(k: Value): string {
    match k
    case Undefined => "undefined"
    case Str(s) => s
    case Arr(_, items) => Join(",", items)
  }

  /** `res[name] = v`: an existing property keeps its place and gets the new
      value, a new one goes last. */
  function Put(fields: seq<(string, seq<Value>)>, name: string, v: seq<Value>): seq<(string, seq<Value>)> {
    if fields == [] then [(name, v)]
    else if fields[0].0 == name then [(name, v)] + fields[1..]
    else [fields[0]] + Put(fields[1..], name, v)
  }

  function PutAll(fields: seq<(string, seq<Value>)>, keys: seq<Value>, lists: map<Value, seq<Value>>): seq<(string, seq<Value>)>
    requires forall k :: k in keys ==> k in lists
    decreases |keys|
  {
    if keys == [] then fields
    else
      var k := keys[|keys| - 1];
      Put(PutAll(fields, keys[..|keys| - 1], lists), PropertyName(k), lists[k])
  }

  function ObjectOf(st: Store): seq<(string, seq<Value>)>
    requires WellFormed(st)
  {
    PutAll([], st.keys, st.lists)
  }

  lemma {:induction false} PutNew(fields: seq<(string, seq<Value>)>, name: string, v: seq<Value>)
    requires forall i :: 0 <= i < |fields| ==> fields[i].0 != name
    ensures Put(fields, name, v) == fields + [(name, v)]
  {
    if fields != [] {
      assert forall i :: 0 <= i < |fields| - 1 ==> fields[1..][i] == fields[i + 1];
      PutNew(fields[1..], name, v);
    }
  }

  /** With string keys, the object has exactly the map's keys as property
      names, in order, each bound to its list. */
  lemma {:induction false} ObjectOfStrings(keys: seq<Value>, lists: map<Value, seq<Value>>)
    requires Distinct(keys) && forall k :: k in keys ==> k in lists
    requires forall i :: 0 <= i < |keys| ==> keys[i].Str?
    decreases |keys|
    ensures |PutAll([], keys, lists)| == |keys|
    ensures forall i :: 0 <= i < |keys| ==> PutAll([], keys, lists)[i] == (keys[i].s, lists[keys[i]])
  {
    if keys != [] {
      var init := keys[..|keys| - 1];
      var last := keys[|keys| - 1];
      ObjectOfStrings(init, lists);
      var fields := PutAll([], init, lists);
      forall i | 0 <= i < |fields| ensures fields[i].0 != last.s {
        assert init[i] == keys[i];
        assert keys[i] != last;
      }
      PutNew(fields, last.s, lists[last]);
      var all := PutAll([], keys, lists);
      assert all == fields + [(last.s, lists[last])];
      forall i | 0 <= i < |keys| ensures all[i] == (keys[i].s, lists[keys[i]]) {
        if i < |init| { assert keys[i] == init[i]; }
      }
    }
  }

  // ---------------------------------------------------------------------
  // The class itself.

  class ArrayMap {
    var keys: seq<Value>
    var lists: map<Value, seq<Value>>

    function State(): Store
      reads this
    {
      Store(keys, lists)
    }

    ghost predicate Valid()
      reads this
    {
      WellFormed(State())
    }

    /** Lines 15-22; an absent iterable is the empty one. */
    constructor (iter: seq<Value>)
      ensures Valid() && State() == AddedAll(Empty, iter)
    {
      keys := [];
      lists := map[];
      new;
      for i := 0 to |iter|
        invariant Valid() && State() == AddedAll(Empty, iter[..i])
      {
        assert iter[..i + 1][..i] == iter[..i];
        Add(iter[i], Undefined);
      }
      assert iter[..|iter|] == iter;
    }

    /** Lines 24-32. */
    method Add(key: Value, value: Value)
      requires Valid()
      modifies this
      ensures Valid() && State() == Added(old(State()), key, value)
    {
      var k, v := key, value;
      if k.Arr? && |k.items| >= 2 && v.Undefined? {
        v := Arr(k.ref, k.items[1..]);
        k := Str(k.items[0]);
      }
      AddedWellFormed(State(), key, value);
      if k in lists {
        lists := lists[k := lists[k] + [v]];
      } else {
        keys := keys + [k];
        lists := lists[k := [v]];
      }
    }

    /** Lines 34-40: the entries in insertion order become properties. */
    method ToObject() returns (res: seq<(string, seq<Value>)>)
      requires Valid()
      ensures res == ObjectOf(State())
    {
      res := [];
      for i := 0 to |keys|
        invariant res == PutAll([], keys[..i], lists)
      {
        assert keys[..i + 1][..i] == keys[..i];
        var k := keys[i];
        res := Put(res, PropertyName(k), lists[k]);
      }
      assert keys[..|keys|] == keys;
    }
  }
}
