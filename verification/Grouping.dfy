/** `groupBy` of src/modules/admin/admin.service.ts (lines 1425-1434). */
module Grouping {

  /** The items with one key, in their order. */
  function WithKey<T>(items: seq<T>, getKey: T -> string, key: string): seq<T> {
    if items == [] then []
    else
      var last := items[|items| - 1];
      WithKey(items[..|items| - 1], getKey, key) + if getKey(last) == key then [last] else []
  }

  function Group<T>(grouped: map<string, seq<T>>, key: string): seq<T> {
    if key in grouped then grouped[key] else []
  }

  /** Looking a key up gives the items a filter would give, and only keys in use are set. */
  ghost predicate Groups<T>(grouped: map<string, seq<T>>, items: seq<T>, getKey: T -> string) {
    forall key ::
      Group(grouped, key) == WithKey(items, getKey, key) && (key in grouped <==> WithKey(items, getKey, key) != [])
  }

  lemma WithKeySnoc<T>(items: seq<T>, i: nat, getKey: T -> string, key: string)
    requires i < |items|
    ensures WithKey(items[..i + 1], getKey, key)
         == WithKey(items[..i], getKey, key) + if getKey(items[i]) == key then [items[i]] else []
  {
    assert items[..i + 1][..i] == items[..i];
  }

  method GroupBy<T>(items: seq<T>, getKey: T -> string) returns (grouped: map<string, seq<T>>)
    ensures Groups(grouped, items, getKey)
  {
    grouped := map[];
    for i := 0 to |items|
      invariant Groups(grouped, items[..i], getKey)
    {
      var key := getKey(items[i]);
      ghost var before := grouped;
      grouped := grouped[key := Group(grouped, key) + [items[i]]];
      forall k
        ensures Group(grouped, k) == WithKey(items[..i + 1], getKey, k)
        ensures k in grouped <==> WithKey(items[..i + 1], getKey, k) != []
      {
        WithKeySnoc(items, i, getKey, k);
        assert Group(before, k) == WithKey(items[..i], getKey, k);
      }
    }
    assert items[..|items|] == items;
  }
}
