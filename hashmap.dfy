/**
 * `useHashmap<T>()`: the memoisation map every cache of the library is made
 * of. The source keeps a `Map` in a closure and hands out four functions
 * over it; here the closure is an object whose one field is that map.
 */
module Hashmap {
  import opened Base

  class Hashmap<K(==), T> {
    /** The entries of the underlying `Map`. */
    var store: map<K, T>

    /** `useHashmap()`: a memo with no entries. */
    constructor ()
      ensures store == map[]
    {
      store := map[];
    }

    /** `set(key, data)`: store the entry and hand the value back. */
    method Set(key: K, data: T) returns (r: T)
      modifies this
      ensures r == data
      ensures store == old(store)[key := data]
    {
      store := store[key := data];
      r := data;
    }

    /** `has(key)`: membership, without changing anything. */
    method Has(key: K) returns (b: bool)
      ensures b <==> key in store
    {
      b := key in store;
    }

    /** `get(key)`: the stored value, or nothing (`undefined`) for an absent key. */
    method Get(key: K) returns (r: Option<T>)
      ensures key in store ==> r == Some(store[key])
      ensures key !in store ==> r == None
    {
      if key in store {
        r := Some(store[key]);
      } else {
        r := None;
      }
    }

    /** `ensure(key, callback)`: a present key yields its stored value and the
        memo stays as it was; an absent key stores `callback()` and yields it. */
    method Ensure(key: K, callback: () -> T) returns (r: T)
      modifies this
      ensures key in old(store) ==> r == old(store)[key] && store == old(store)
      ensures key !in old(store) ==> r == callback() && store == old(store)[key := r]
    {
      var present := Has(key);
      if present {
        var got := Get(key);
        r := got.value;
      } else {
        r := Set(key, callback());
      }
    }
  }
}
