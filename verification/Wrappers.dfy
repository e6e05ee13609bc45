/** Success-or-absence values and facts about sets and sequences, shared by the other modules. */
module Wrappers {

  datatype Option<+T> = None | Some(value: T)

  datatype Result<+T, +E> = Ok(value: T) | Err(error: E)

  lemma SomeElement<T>(s: set<T>) returns (x: T)
    requires s != {}
    ensures x in s
  {
    x :| x in s;
  }

  lemma Regroup<T>(a: seq<T>, b: seq<T>, c: seq<T>)
    ensures a + (b + c) == (a + b) + c
  {
  }

  /** `keys` names every member of a set once. */
  ghost predicate Enumerates<K(!new)>(keys: seq<K>, all: set<K>) {
    && (forall k :: k in keys <==> k in all)
    && (forall i, j | 0 <= i < j < |keys| :: keys[i] != keys[j])
  }

  lemma EnumeratesLess<K(!new)>(keys: seq<K>, all: set<K>)
    requires Enumerates(keys, all) && keys != []
    ensures keys[|keys| - 1] in all
    ensures Enumerates(keys[..|keys| - 1], all - {keys[|keys| - 1]})
  {
    var n := |keys| - 1;
    assert keys[n] in keys;
    assert forall j :: j in keys[..n] <==> j in keys && j != keys[n];
  }
}
