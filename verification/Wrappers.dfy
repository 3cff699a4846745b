/** Values that may be missing, looking one up in a list, and joining lists. */
module Wrappers {

  /** `undefined` or `null` in the source. */
  datatype Option<+T> = None | Some(value: T)

  /** `findIndex`: where the first element with an id stands, or the length if there is none. */
  function Find<T, K(==)>(list: seq<T>, idOf: T -> K, id: K): (i: nat)
    ensures i <= |list|
    ensures i < |list| ==> idOf(list[i]) == id
    ensures forall j :: 0 <= j < i ==> idOf(list[j]) != id
  {
    if list == [] || idOf(list[0]) == id then 0 else 1 + Find(list[1..], idOf, id)
  }

  lemma Assoc<T>(a: seq<T>, b: seq<T>, c: seq<T>)
    ensures (a + b) + c == a + (b + c)
  {
  }

  /** How often a value is in a list with one more element. */
  lemma CountSnoc<T>(list: seq<T>, last: T, x: T)
    ensures multiset(list + [last])[x] == multiset(list)[x] + if x == last then 1 else 0
    ensures list + [] == list
  {
  }

  lemma SplitLast<T>(list: seq<T>)
    requires list != []
    ensures list == list[..|list| - 1] + [list[|list| - 1]]
  {
  }
}
