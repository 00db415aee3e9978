/** Listing a table: one record for each key, in whatever order the backend yields them. */
module Listings {
  import opened OrderedDict

  ghost predicate ListedBy<V>(list: seq<V>, keys: seq<string>, table: map<string, V>) {
    && |list| == |keys| == |table|
    && Elements(keys) == table.Keys
    && forall i :: 0 <= i < |keys| ==> keys[i] in table && list[i] == table[keys[i]]
  }

  /** `list` holds exactly one record for each key of `table`, in some order. */
  ghost predicate Lists<V>(list: seq<V>, table: map<string, V>) {
    exists keys :: ListedBy(list, keys, table)
  }

  lemma ListedOneMore<V>(list: seq<V>, keys: seq<string>, table: map<string, V>, k: string, rec: V)
    requires ListedBy(list, keys, table) && k !in table
    ensures ListedBy(list + [rec], keys + [k], table[k := rec])
  {
    assert Elements(keys + [k]) == Elements(keys) + {k};
    assert |table[k := rec]| == |table| + 1 by {
      assert |table[k := rec].Keys| == |table.Keys + {k}|;
    }
  }

  /** The readable rows outside `rest`. */
  function Outside<V>(table: map<string, V>, unreadable: set<string>, rest: set<string>): map<string, V> {
    table - (unreadable + rest)
  }

  lemma OutsideNext<V>(table: map<string, V>, unreadable: set<string>, rest: set<string>, k: string)
    requires k in rest && k in table
    ensures k !in Outside(table, unreadable, rest)
    ensures Outside(table, unreadable, rest - {k}) ==
            if k in unreadable then Outside(table, unreadable, rest) else Outside(table, unreadable, rest)[k := table[k]]
  {
  }

  /** One pass over the keys, leaving out those that cannot be read. */
  method ListRows<V>(table: map<string, V>, unreadable: set<string>) returns (list: seq<V>)
    ensures Lists(list, table - unreadable)
  {
    var rest := table.Keys;
    list := [];
    ghost var keys: seq<string> := [];
    assert Outside(table, unreadable, rest) == map[];
    while rest != {}
      invariant rest <= table.Keys
      invariant ListedBy(list, keys, Outside(table, unreadable, rest))
      decreases rest
    {
      var k :| k in rest;
      OutsideNext(table, unreadable, rest, k);
      if k !in unreadable {
        ListedOneMore(list, keys, Outside(table, unreadable, rest), k, table[k]);
        keys := keys + [k];
        list := list + [table[k]];
      }
      rest := rest - {k};
    }
    assert Outside(table, unreadable, {}) == table - unreadable;
  }
}
