// LRUCache: a map from key to list element and a list of elements, most recent in front.
module LruCaches {
  import opened Entities
  import opened Walks
  import opened LruOrder

  class Element<V> {
    var value: V

    constructor (value: V)
      ensures this.value == value
    {
      this.value := value;
    }
  }

  function Without<T>(s: seq<T>, i: nat): seq<T>
    requires i < |s|
  {
    s[..i] + s[i + 1..]
  }

  // container/list: MoveToFront of the i-th element.
  function Front<T>(s: seq<T>, i: nat): seq<T>
    requires i < |s|
  {
    [s[i]] + Without(s, i)
  }

  // Where the j-th element of the moved list was before.
  function Origin(i: nat, j: nat): nat {
    if j == 0 then i else if j <= i then j - 1 else j
  }

  lemma FrontAt<T>(s: seq<T>, i: nat, j: nat)
    requires i < |s| && j < |s|
    ensures |Front(s, i)| == |s| && Origin(i, j) < |s| && Front(s, i)[j] == s[Origin(i, j)]
  {
  }

  lemma FrontDistinct<T>(s: seq<T>, i: nat)
    requires i < |s| && forall j, k :: 0 <= j < k < |s| ==> s[j] != s[k]
    ensures forall j, k :: 0 <= j < k < |s| ==> Front(s, i)[j] != Front(s, i)[k]
  {
    forall j, k | 0 <= j < k < |s|
      ensures Front(s, i)[j] != Front(s, i)[k]
    {
      FrontAt(s, i, j);
      FrontAt(s, i, k);
    }
  }

  lemma {:induction false} RemoveAt(keys: seq<string>, k: string, i: nat)
    requires Simple(keys) && i < |keys| && keys[i] == k
    ensures Remove(keys, k) == Without(keys, i)
  {
    if i == 0 {
      RemoveAbsent(keys[1..], k);
    } else {
      RemoveAt(keys[1..], k, i - 1);
    }
  }

  // The map and the list are in bijection: keys names the key of each list element.
  ghost predicate Linked<T>(cache: map<string, T>, list: seq<T>, keys: seq<string>) {
    && |keys| == |list| && Simple(keys)
    && (forall i :: 0 <= i < |list| ==> keys[i] in cache && cache[keys[i]] == list[i])
    && (forall k :: k in cache ==> k in keys)
    && (forall j, k :: 0 <= j < k < |list| ==> list[j] != list[k])
  }

  lemma LinkedPlace<T>(cache: map<string, T>, list: seq<T>, keys: seq<string>, key: string, i: nat)
    requires Linked(cache, list, keys) && key in cache && i < |list| && list[i] == cache[key]
    ensures keys[i] == key
  {
    var j :| 0 <= j < |keys| && keys[j] == key;
  }

  lemma LinkedFront<T>(cache: map<string, T>, list: seq<T>, keys: seq<string>, i: nat)
    requires Linked(cache, list, keys) && i < |list|
    ensures Linked(cache, Front(list, i), Front(keys, i)) && Front(keys, i) == Touch(keys, keys[i])
  {
    FrontDistinct(list, i);
    FrontDistinct(keys, i);
    RemoveAt(keys, keys[i], i);
    forall k | k in cache
      ensures k in Front(keys, i)
    {
      FrontHas(keys, i, k);
    }
    forall j | 0 <= j < |list|
      ensures Front(keys, i)[j] in cache && cache[Front(keys, i)[j]] == Front(list, i)[j]
    {
      FrontAt(keys, i, j);
      FrontAt(list, i, j);
    }
  }

  lemma FrontHas(keys: seq<string>, i: nat, k: string)
    requires i < |keys| && k in keys
    ensures k in Front(keys, i)
  {
    var j :| 0 <= j < |keys| && keys[j] == k;
    var p := if j < i then j + 1 else if j == i then 0 else j;
    FrontAt(keys, i, p);
    assert Front(keys, i)[p] == k;
  }

  lemma LinkedPush<T>(cache: map<string, T>, list: seq<T>, keys: seq<string>, key: string, e: T)
    requires Linked(cache, list, keys) && key !in cache && e !in list
    ensures Linked(cache[key := e], [e] + list, [key] + keys)
  {
    assert key !in keys;
    SimplePrepend(keys, key);
    var list', keys' := [e] + list, [key] + keys;
    assert forall i :: 0 < i < |list'| ==> list'[i] == list[i - 1] && keys'[i] == keys[i - 1];
    forall k | k in cache[key := e]
      ensures k in keys'
    {
      if k != key {
        assert k in keys;
      }
    }
  }

  lemma LinkedDropLast<T>(cache: map<string, T>, list: seq<T>, keys: seq<string>)
    requires Linked(cache, list, keys) && list != []
    ensures Linked(cache - {keys[|keys| - 1]}, list[..|list| - 1], keys[..|keys| - 1])
  {
    var n := |keys| - 1;
    forall k | k in cache - {keys[n]}
      ensures k in keys[..n]
    {
      var j :| 0 <= j < |keys| && keys[j] == k;
      assert keys[..n][j] == k;
    }
  }

  class LruCache<V> {
    const maxSize: int
    var cache: map<string, Element<V>>
    var list: seq<Element<V>>
    var hits: nat
    var misses: nat
    var evictions: nat
    var size: int
    // the key of each list element, and the fresh inserts and evictions since the last Clear
    ghost var keys: seq<string>
    ghost var inserts: nat
    ghost var evictedBefore: nat

    // The structure is linked, the list respects the capacity, and the counters add up.
    ghost predicate Valid()
      reads this
    {
      && Linked(cache, list, keys)
      && |list| <= Capacity(maxSize)
      && size == |list|
      && evictedBefore <= evictions
      && inserts == size + (evictions - evictedBefore)
    }

    // The value stored under a key.
    function Peek(key: string): V
      requires key in cache
      reads this, cache[key]
    {
      cache[key].value
    }

    constructor (maxSize: int)
      ensures Valid() && this.maxSize == maxSize && keys == [] && cache == map[] && inserts == 0
    {
      this.maxSize := maxSize;
      cache, list := map[], [];
      hits, misses, evictions, size := 0, 0, 0, 0;
      keys, inserts, evictedBefore := [], 0, 0;
    }

    method MoveToFront(ghost key: string, e: Element<V>)
      requires Valid() && key in cache && cache[key] == e
      modifies this`list, this`keys
      ensures Valid() && keys == Touch(old(keys), key)
    {
      ghost var j :| 0 <= j < |keys| && keys[j] == key;
      var i :| 0 <= i < |list| && list[i] == e;
      LinkedPlace(cache, list, keys, key, i);
      LinkedFront(cache, list, keys, i);
      list, keys := Front(list, i), Front(keys, i);
    }

    method Get(key: string) returns (r: Option<V>)
      requires Valid()
      modifies this`list, this`keys, this`hits, this`misses
      ensures Valid() && keys == GetKey(old(keys), key)
      ensures r.Some? <==> key in old(keys)
      ensures r.Some? ==> key in cache && r.value == Peek(key)
      ensures hits == old(hits) + (if key in old(keys) then 1 else 0)
      ensures misses == old(misses) + (if key in old(keys) then 0 else 1)
    {
      if key in cache {
        var element := cache[key];
        MoveToFront(key, element);
        hits := hits + 1;
        r := Some(element.value);
      } else {
        assert key !in keys;
        misses := misses + 1;
        r := None;
      }
    }

    // The key filed under an element, found by trying the map's entries in any order.
    method KeyOf(e: Element<V>, ghost x: string) returns (k: string)
      requires x in cache && cache[x] == e
      ensures k in cache && cache[k] == e
    {
      var untried := cache.Keys;
      while untried != {}
        invariant untried <= cache.Keys
        invariant x in untried
        decreases untried
      {
        k :| k in untried;
        if cache[k] == e {
          return;
        }
        untried := untried - {k};
      }
      assert false;
      k := "";
    }

    // The back of an overfull list goes, and so does its map entry.
    method Evict()
      requires Linked(cache, list, keys) && list != []
      modifies this
      ensures Linked(cache, list, keys) && list == old(list[..|list| - 1]) && keys == old(keys[..|keys| - 1])
      ensures cache == old(cache - {keys[|keys| - 1]})
      ensures evictions == old(evictions) + 1 && size == old(size) - 1
      ensures unchanged(`hits, `misses, `inserts, `evictedBefore)
    {
      var back := list[|list| - 1];
      ghost var last := keys[|keys| - 1];
      var k := KeyOf(back, last);
      LinkedPlace(cache, list, keys, k, |list| - 1);
      LinkedDropLast(cache, list, keys);
      assert k == last;
      cache, list, keys := cache - {k}, list[..|list| - 1], keys[..|keys| - 1];
      evictions, size := evictions + 1, size - 1;
    }

    // PushFront and the map entry of a new key; the list may be one too long afterwards.
    method Push(key: string, value: V)
      requires Valid() && key !in cache
      modifies this
      ensures Linked(cache, list, keys) && keys == [key] + old(keys) && size == |list|
      ensures key in cache && fresh(cache[key]) && cache[key].value == value
      ensures cache == old(cache)[key := cache[key]]
      ensures inserts == old(inserts) + 1
      ensures unchanged(`hits, `misses, `evictions, `evictedBefore)
    {
      var element := new Element<V>(value);
      LinkedPush(cache, list, keys, key, element);
      cache, list, size := cache[key := element], [element] + list, size + 1;
      keys, inserts := [key] + keys, inserts + 1;
    }

    // A new key: push its element, then evict if the list has grown too long.
    method Insert(key: string, value: V)
      requires Valid() && key !in cache
      modifies this
      ensures Valid() && keys == PutKey(old(keys), key, maxSize)
      ensures key in keys ==> key in cache && fresh(cache[key]) && cache[key].value == value
      ensures forall k :: k in keys && k != key ==> k in cache && k in old(cache) && cache[k] == old(cache)[k]
      ensures inserts == old(inserts) + 1
      ensures evictions == old(evictions) + (if |old(keys)| + 1 > maxSize then 1 else 0)
      ensures hits == old(hits) && misses == old(misses) && evictedBefore == old(evictedBefore)
    {
      assert key !in keys;
      Push(key, value);
      if |list| > maxSize {
        Evict();
      }
    }

    method Put(key: string, value: V)
      requires Valid()
      modifies this, if key in cache then {cache[key]} else {}
      ensures Valid() && keys == PutKey(old(keys), key, maxSize)
      ensures key in keys ==> key in cache && Peek(key) == value
      ensures key in keys ==> if key in old(cache) then cache[key] == old(cache)[key] else fresh(cache[key])
      ensures forall k :: k in keys && k != key ==> k in cache && k in old(cache) && cache[k] == old(cache)[k]
      ensures inserts == old(inserts) + (if key in old(keys) then 0 else 1)
      ensures evictions == old(evictions) + (if key !in old(keys) && |old(keys)| + 1 > maxSize then 1 else 0)
      ensures hits == old(hits) && misses == old(misses) && evictedBefore == old(evictedBefore)
    {
      if key in cache {
        var element := cache[key];
        element.value := value;
        MoveToFront(key, element);
        AllKeysListed();
      } else {
        Insert(key, value);
      }
    }

    lemma AllKeysListed()
      requires Valid()
      ensures forall k :: k in keys <==> k in cache
    {
    }

    // The list holds exactly the elements of the map.
    lemma ListedAreCached()
      requires Valid()
      ensures forall e :: e in list <==> exists k :: k in cache && cache[k] == e
    {
      forall e | e in list
        ensures exists k :: k in cache && cache[k] == e
      {
        var i :| 0 <= i < |list| && list[i] == e;
        assert keys[i] in cache && cache[keys[i]] == e;
      }
      forall k | k in cache
        ensures cache[k] in list
      {
        var i :| 0 <= i < |keys| && keys[i] == k;
        assert list[i] == cache[k];
      }
    }

    method Size() returns (n: nat)
      requires Valid()
      ensures n == |keys| && n == size
    {
      n := |list|;
    }

    method Clear()
      requires Valid()
      modifies this
      ensures Valid() && keys == [] && inserts == 0
      ensures hits == old(hits) && misses == old(misses) && evictions == old(evictions)
    {
      cache, list, size := map[], [], 0;
      keys, inserts, evictedBefore := [], 0, evictions;
    }
  }
}
