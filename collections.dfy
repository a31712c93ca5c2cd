/** Small facts about sets and maps that the loops over them use. */
module Collections {
  /** Taking one more pending element moves it to the done part. */
  lemma TakeOne<T>(all: set<T>, pending: set<T>, x: T)
    requires x in pending && pending <= all
    ensures all - (pending - {x}) == (all - pending) + {x}
  {
  }

  /** Nothing is pending any more: everything is done. */
  lemma NonePending<T>(all: set<T>, pending: set<T>)
    requires pending == {}
    ensures all - pending == all
  {
  }

  /** A second update of the same key overrides the first. */
  lemma UpdateTwice<K, V>(m: map<K, V>, k: K, a: V, b: V)
    ensures m[k := a][k := b] == m[k := b]
  {
  }

  /** Removing a key and putting it back is a plain update. */
  lemma RemoveThenUpdate<K, V>(m: map<K, V>, k: K, v: V)
    ensures (m - {k})[k := v] == m[k := v]
  {
  }

  /** Updating a key with its own value changes nothing. */
  lemma UpdateSame<K, V>(m: map<K, V>, k: K)
    requires k in m
    ensures m[k := m[k]] == m
  {
  }

  /** The elements at the first `i + 1` positions: those at the first `i`, and one more. */
  lemma PrefixElementsStep<T>(s: seq<T>, i: nat)
    requires i < |s|
    ensures (set j | 0 <= j < i + 1 :: s[j]) == (set j | 0 <= j < i :: s[j]) + {s[i]}
  {
  }

  /** Two maps with the same keys and the same value at each key are equal. */
  lemma MapsAgree<K, V>(m1: map<K, V>, m2: map<K, V>)
    requires m1.Keys == m2.Keys
    requires forall k :: k in m1 ==> m1[k] == m2[k]
    ensures m1 == m2
  {
  }
}
