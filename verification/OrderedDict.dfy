/** The insertion-ordered dictionary behind the cache: a map together with the order
    in which its keys were inserted.  Overwriting a key keeps its place; deleting it and
    inserting it again moves it to the end. */
module OrderedDict {

  datatype RawDict<V> = RawDict(store: map<string, V>, order: seq<string>)

  function Elements(order: seq<string>): set<string> {
    set k | k in order
  }

  predicate WellFormed<V>(d: RawDict<V>) {
    Elements(d.order) == d.store.Keys
  }

  type Dict<V> = d: RawDict<V> | WellFormed(d) witness RawDict(map[], [])

  function Empty<V>(): Dict<V> {
    RawDict(map[], [])
  }

  /** The keys of `order` that are in `keys`, in the same order. */
  function Keep(order: seq<string>, keys: set<string>): (r: seq<string>)
    ensures forall k :: k in r <==> k in order && k in keys
  {
    if order == [] then []
    else
      var rest := Keep(order[1..], keys);
      if order[0] in keys then [order[0]] + rest else rest
  }

  /** The dictionary cut down to `keys`. */
  function Retain<V>(d: Dict<V>, keys: set<string>): (r: Dict<V>)
    ensures r.store.Keys == d.store.Keys * keys
    ensures forall k :: k in r.store ==> r.store[k] == d.store[k]
  {
    var r := RawDict(map k | k in d.store && k in keys :: d.store[k], Keep(d.order, keys));
    assert Elements(r.order) == r.store.Keys by {
      assert forall k :: k in r.order <==> k in Elements(d.order) && k in keys;
    }
    r
  }

  function Put<V>(d: Dict<V>, k: string, v: V): (r: Dict<V>)
    ensures r.store == d.store[k := v]
  {
    if k in d.store then
      var r := RawDict(d.store[k := v], d.order);
      assert r.store.Keys == d.store.Keys;
      r
    else
      assert k !in Elements(d.order);
      var r := RawDict(d.store[k := v], d.order + [k]);
      assert Elements(r.order) == Elements(d.order) + {k};
      r
  }

  function Drop<V>(d: Dict<V>, k: string): (r: Dict<V>)
    ensures r.store == d.store - {k}
  {
    Retain(d, d.store.Keys - {k})
  }

  lemma {:induction false} KeepTwice(order: seq<string>, a: set<string>, b: set<string>)
    ensures Keep(Keep(order, a), b) == Keep(order, a * b)
  {
    if order == [] {
    } else {
      KeepTwice(order[1..], a, b);
      var rest := Keep(order[1..], a);
      assert ([order[0]] + rest)[1..] == rest;
    }
  }

  lemma {:induction false} KeepAll(order: seq<string>, keys: set<string>)
    requires forall k :: k in order ==> k in keys
    ensures Keep(order, keys) == order
  {
    if order != [] {
      KeepAll(order[1..], keys);
    }
  }

  lemma RetainTwice<V>(d: Dict<V>, a: set<string>, b: set<string>)
    ensures Retain(Retain(d, a), b) == Retain(d, a * b)
  {
    KeepTwice(d.order, a, b);
  }

  lemma RetainAll<V>(d: Dict<V>, keys: set<string>)
    requires d.store.Keys <= keys
    ensures Retain(d, keys) == d
  {
    assert forall k :: k in d.order ==> k in Elements(d.order);
    KeepAll(d.order, keys);
  }
}
