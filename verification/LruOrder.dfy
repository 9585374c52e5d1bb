// What an LRU cache remembers, as a list of keys with the most recent first, over any
// history of operations.
module LruOrder {
  import opened Walks

  function Remove(keys: seq<string>, k: string): seq<string> {
    if keys == [] then []
    else if keys[0] == k then Remove(keys[1..], k)
    else [keys[0]] + Remove(keys[1..], k)
  }

  // MoveToFront of a key that is present.
  function Touch(keys: seq<string>, k: string): seq<string> {
    [k] + Remove(keys, k)
  }

  // Put: an existing key moves to the front; a new one is pushed, and if that makes the list
  // longer than maxSize the last key goes.
  function PutKey(keys: seq<string>, k: string, maxSize: int): seq<string> {
    if k in keys then Touch(keys, k)
    else
      var pushed := [k] + keys;
      if |pushed| > maxSize then pushed[..|pushed| - 1] else pushed
  }

  // Get: a hit moves the key to the front, a miss changes nothing.
  function GetKey(keys: seq<string>, k: string): seq<string> {
    if k in keys then Touch(keys, k) else keys
  }

  function Capacity(maxSize: int): nat {
    if maxSize < 0 then 0 else maxSize
  }

  datatype Op = Get(key: string) | Put(key: string) | Clear

  function Apply(keys: seq<string>, op: Op, maxSize: int): seq<string> {
    match op
    case Get(k) => GetKey(keys, k)
    case Put(k) => PutKey(keys, k, maxSize)
    case Clear => []
  }

  // The keys held after a history that starts empty.
  function KeysAfter(h: seq<Op>, maxSize: int): seq<string> {
    if h == [] then [] else Apply(KeysAfter(h[..|h| - 1], maxSize), h[|h| - 1], maxSize)
  }

  // ---- Removing a key ----

  lemma {:induction false} RemoveFacts(keys: seq<string>, k: string)
    requires Simple(keys)
    ensures Simple(Remove(keys, k))
    ensures forall x :: x in Remove(keys, k) <==> x in keys && x != k
    ensures |Remove(keys, k)| == |keys| - (if k in keys then 1 else 0)
  {
    if keys != [] {
      RemoveFacts(keys[1..], k);
      assert keys[0] !in keys[1..];
      if keys[0] != k {
        SimplePrepend(Remove(keys[1..], k), keys[0]);
      }
    }
  }

  lemma SimplePrepend(keys: seq<string>, k: string)
    requires Simple(keys) && k !in keys
    ensures Simple([k] + keys)
  {
  }

  lemma {:induction false} RemoveAbsent(keys: seq<string>, k: string)
    requires k !in keys
    ensures Remove(keys, k) == keys
  {
    if keys != [] {
      RemoveAbsent(keys[1..], k);
    }
  }

  // No duplicates and never more than the capacity, zero and negative sizes included.
  lemma ApplyBounded(keys: seq<string>, op: Op, maxSize: int)
    requires Simple(keys) && |keys| <= Capacity(maxSize)
    ensures Simple(Apply(keys, op, maxSize)) && |Apply(keys, op, maxSize)| <= Capacity(maxSize)
  {
    if !op.Clear? {
      RemoveFacts(keys, op.key);
      if op.key in keys {
        SimplePrepend(Remove(keys, op.key), op.key);
      } else {
        SimplePrepend(keys, op.key);
      }
    }
  }

  lemma {:induction false} AfterBounded(h: seq<Op>, maxSize: int)
    ensures Simple(KeysAfter(h, maxSize)) && |KeysAfter(h, maxSize)| <= Capacity(maxSize)
  {
    if h != [] {
      AfterBounded(h[..|h| - 1], maxSize);
      ApplyBounded(KeysAfter(h[..|h| - 1], maxSize), h[|h| - 1], maxSize);
    }
  }

  // ---- A smaller cache holds a part of a larger one, in the same order ----

  predicate IsSubsequence(s: seq<string>, l: seq<string>) {
    if s == [] then true
    else if l == [] then false
    else if s[0] == l[0] then IsSubsequence(s[1..], l[1..])
    else IsSubsequence(s, l[1..])
  }

  lemma {:induction false} SubsequenceMembers(s: seq<string>, l: seq<string>, x: string)
    requires IsSubsequence(s, l) && x in s
    ensures x in l
  {
    if s[0] == l[0] {
      if x != s[0] {
        SubsequenceMembers(s[1..], l[1..], x);
      }
    } else {
      SubsequenceMembers(s, l[1..], x);
    }
  }

  lemma {:induction false} SubsequenceReflexive(s: seq<string>)
    ensures IsSubsequence(s, s)
  {
    if s != [] {
      SubsequenceReflexive(s[1..]);
    }
  }

  lemma {:induction false} SubsequenceRemove(s: seq<string>, l: seq<string>, k: string)
    requires Simple(s) && Simple(l) && IsSubsequence(s, l)
    ensures IsSubsequence(Remove(s, k), Remove(l, k))
  {
    if s != [] && l != [] {
      if s[0] == l[0] {
        SubsequenceRemove(s[1..], l[1..], k);
      } else {
        SubsequenceRemove(s, l[1..], k);
        if l[0] != k {
          SubsequenceSkip(Remove(s, k), Remove(l[1..], k), l[0]);
        }
      }
    }
  }

  // Extra keys in front of the longer list do no harm.
  lemma {:induction false} SubsequenceSkip(s: seq<string>, l: seq<string>, k: string)
    requires IsSubsequence(s, l)
    ensures IsSubsequence(s, [k] + l)
    decreases |l|, 1
  {
    assert ([k] + l)[1..] == l;
    if s != [] && s[0] == k {
      SubsequenceTail(s, l);
    }
  }

  lemma {:induction false} SubsequenceTail(s: seq<string>, l: seq<string>)
    requires IsSubsequence(s, l) && s != []
    ensures IsSubsequence(s[1..], l)
    decreases |l|, 0
  {
    if s[0] == l[0] {
      SubsequenceSkip(s[1..], l[1..], l[0]);
      assert [l[0]] + l[1..] == l;
    } else {
      SubsequenceTail(s, l[1..]);
      SubsequenceSkip(s[1..], l[1..], l[0]);
      assert [l[0]] + l[1..] == l;
    }
  }

  // Dropping the last key of both, or of the shorter list only, keeps the relation.
  lemma {:induction false} SubsequenceDropLast(s: seq<string>, l: seq<string>)
    requires IsSubsequence(s, l) && s != []
    ensures l != [] && IsSubsequence(s[..|s| - 1], l[..|l| - 1])
    ensures IsSubsequence(s[..|s| - 1], l)
    decreases |l|
  {
    if s[0] == l[0] {
      if |s| > 1 {
        SubsequenceDropLast(s[1..], l[1..]);
        assert s[..|s| - 1][1..] == s[1..][..|s| - 2];
        assert l[..|l| - 1][1..] == l[1..][..|l| - 2];
      }
    } else {
      SubsequenceDropLast(s, l[1..]);
      SubsequenceSkip(s[..|s| - 1], l[1..][..|l| - 2], l[0]);
      assert [l[0]] + l[1..][..|l| - 2] == l[..|l| - 1];
    }
  }

  lemma SubsequencePush(s: seq<string>, l: seq<string>, k: string)
    requires IsSubsequence(s, l)
    ensures IsSubsequence([k] + s, [k] + l)
  {
    assert ([k] + s)[1..] == s && ([k] + l)[1..] == l;
  }

  // Until the smaller cache is full the two are equal; from then on it stays full.
  ghost predicate Included(small: seq<string>, large: seq<string>, smallSize: int) {
    IsSubsequence(small, large) && (|small| == Capacity(smallSize) || small == large)
  }

  lemma ApplyIncluded(small: seq<string>, large: seq<string>, op: Op, smallSize: int, largeSize: int)
    requires Simple(small) && Simple(large) && Included(small, large, smallSize) && smallSize <= largeSize
    requires |small| <= Capacity(smallSize) && |large| <= Capacity(largeSize)
    requires !op.Clear?
    ensures IsSubsequence(Apply(small, op, smallSize), Apply(large, op, largeSize))
    ensures || |Apply(small, op, smallSize)| == Capacity(smallSize)
            || Apply(small, op, smallSize) == Apply(large, op, largeSize)
  {
    var k := op.key;
    RemoveFacts(small, k);
    RemoveFacts(large, k);
    if k in small {
      SubsequenceMembers(small, large, k);
      SubsequenceRemove(small, large, k);
      SubsequencePush(Remove(small, k), Remove(large, k), k);
    } else if op.Get? {
      if k in large {
        SubsequenceRemove(small, large, k);
        RemoveAbsent(small, k);
        SubsequenceSkip(small, Remove(large, k), k);
      }
    } else {
      PutMissIncluded(small, large, k, smallSize, largeSize);
    }
  }

  lemma PutMissIncluded(small: seq<string>, large: seq<string>, k: string, smallSize: int, largeSize: int)
    requires Simple(small) && Simple(large) && Included(small, large, smallSize) && smallSize <= largeSize
    requires |small| <= Capacity(smallSize) && |large| <= Capacity(largeSize) && k !in small
    ensures IsSubsequence(PutKey(small, k, smallSize), PutKey(large, k, largeSize))
    ensures || |PutKey(small, k, smallSize)| == Capacity(smallSize)
            || PutKey(small, k, smallSize) == PutKey(large, k, largeSize)
  {
    var small', large' := [k] + small, [k] + (if k in large then Remove(large, k) else large);
    if k in large {
      SubsequenceRemove(small, large, k);
      RemoveAbsent(small, k);
      SubsequencePush(small, Remove(large, k), k);
    } else {
      SubsequencePush(small, large, k);
    }
    SubsequenceDropLast(small', large');
  }

  // Capacity inclusion, for any history of Get, Put and Clear: whatever the smaller cache
  // still holds the larger one holds too, in the same order, so it hits at least as often.
  lemma {:induction false} LargerCacheHoldsMore(h: seq<Op>, smallSize: int, largeSize: int)
    requires smallSize <= largeSize
    ensures || Included(KeysAfter(h, smallSize), KeysAfter(h, largeSize), smallSize)
            || KeysAfter(h, smallSize) == KeysAfter(h, largeSize)
    ensures IsSubsequence(KeysAfter(h, smallSize), KeysAfter(h, largeSize))
    ensures forall k :: k in KeysAfter(h, smallSize) ==> k in KeysAfter(h, largeSize)
  {
    if h != [] {
      var front, op := h[..|h| - 1], h[|h| - 1];
      LargerCacheHoldsMore(front, smallSize, largeSize);
      AfterBounded(front, smallSize);
      AfterBounded(front, largeSize);
      if !op.Clear? {
        ApplyIncluded(KeysAfter(front, smallSize), KeysAfter(front, largeSize), op, smallSize, largeSize);
      }
    }
    forall k | k in KeysAfter(h, smallSize)
      ensures k in KeysAfter(h, largeSize)
    {
      SubsequenceMembers(KeysAfter(h, smallSize), KeysAfter(h, largeSize), k);
    }
  }

  // ---- Stack distance ----

  // One memory-only IsDuplicate: a Get, followed by a Put when it missed.
  function Access(keys: seq<string>, id: string, maxSize: int): seq<string> {
    if id in keys then GetKey(keys, id) else PutKey(GetKey(keys, id), id, maxSize)
  }

  // The memory after the ids of h were checked in turn.
  function Memory(h: seq<string>, maxSize: int): seq<string> {
    if h == [] then [] else Access(Memory(h[..|h| - 1], maxSize), h[|h| - 1], maxSize)
  }

  // All distinct ids of h, most recent first.
  function Recent(h: seq<string>): seq<string> {
    if h == [] then [] else Touch(Recent(h[..|h| - 1]), h[|h| - 1])
  }

  // The distinct ids that follow the last occurrence of id in h.
  ghost function SeenSince(h: seq<string>, id: string): set<string> {
    if h == [] || h[|h| - 1] == id then {} else SeenSince(h[..|h| - 1], id) + {h[|h| - 1]}
  }

  lemma {:induction false} RecentFacts(h: seq<string>)
    ensures Simple(Recent(h)) && forall x :: x in Recent(h) <==> x in h
  {
    if h != [] {
      var front, last := h[..|h| - 1], h[|h| - 1];
      RecentFacts(front);
      RemoveFacts(Recent(front), last);
      SimplePrepend(Remove(Recent(front), last), last);
      assert forall x :: x in h <==> x in front || x == last;
    }
  }

  function Take(keys: seq<string>, n: nat): seq<string> {
    if |keys| <= n then keys else keys[..n]
  }

  // Removing a key inside the first n keeps the rest of them first.
  lemma {:induction false} RemoveFromTake(keys: seq<string>, k: string, n: nat)
    requires Simple(keys) && k in Take(keys, n)
    ensures n > 0 && Remove(Take(keys, n), k) == Take(Remove(keys, k), n - 1)
  {
    if keys[0] == k {
      RemoveAbsent(keys[1..], k);
      RemoveAbsent(Take(keys, n)[1..], k);
    } else {
      assert Take(keys, n)[1..] == Take(keys[1..], n - 1);
      RemoveFromTake(keys[1..], k, n - 1);
      RemoveFacts(keys[1..], k);
    }
  }

  lemma {:induction false} RemoveBeyondTake(keys: seq<string>, k: string, n: nat)
    requires Simple(keys) && k !in Take(keys, n)
    ensures Take(Remove(keys, k), n) == Take(keys, n)
  {
    if keys != [] {
      if keys[0] == k {
        assert n == 0;
      } else if n > 0 {
        assert Take(keys, n)[1..] == Take(keys[1..], n - 1);
        RemoveBeyondTake(keys[1..], k, n - 1);
      }
    }
  }

  // The memory is the most recent part of the history.
  lemma {:induction false} MemoryIsRecent(h: seq<string>, maxSize: int)
    ensures Memory(h, maxSize) == Take(Recent(h), Capacity(maxSize))
  {
    if h != [] {
      var front, id, n := h[..|h| - 1], h[|h| - 1], Capacity(maxSize);
      MemoryIsRecent(front, maxSize);
      RecentFacts(front);
      var recent, keys := Recent(front), Memory(front, maxSize);
      RemoveFacts(recent, id);
      if id in keys {
        RemoveFromTake(recent, id, n);
      } else {
        RemoveBeyondTake(recent, id, n);
        PutTake(Remove(recent, id), keys, id, maxSize);
      }
    }
  }

  lemma PutTake(rest: seq<string>, keys: seq<string>, id: string, maxSize: int)
    requires id !in keys && Take(rest, Capacity(maxSize)) == keys
    ensures PutKey(keys, id, maxSize) == Take([id] + rest, Capacity(maxSize))
  {
  }

  function IndexOf(keys: seq<string>, k: string): (i: nat)
    requires k in keys
    ensures i < |keys| && keys[i] == k
  {
    if keys[0] == k then 0 else 1 + IndexOf(keys[1..], k)
  }

  predicate Before(keys: seq<string>, x: string, y: string)
    requires y in keys
  {
    x in keys && IndexOf(keys, x) < IndexOf(keys, y)
  }

  lemma {:induction false} IndexAfterRemove(keys: seq<string>, k: string, x: string)
    requires Simple(keys) && x in keys && k != x
    ensures x in Remove(keys, k)
    ensures IndexOf(Remove(keys, k), x) == IndexOf(keys, x) - (if Before(keys, k, x) then 1 else 0)
  {
    if keys[0] == k {
      RemoveAbsent(keys[1..], k);
    } else if keys[0] != x {
      IndexAfterRemove(keys[1..], k, x);
    }
  }

  lemma {:induction false} OrderAfterRemove(keys: seq<string>, k: string, x: string, y: string)
    requires Simple(keys) && y in keys && k != y && y in Remove(keys, k)
    ensures Before(Remove(keys, k), x, y) <==> Before(keys, x, y) && x != k
  {
    RemoveFacts(keys, k);
    if x in keys && x != k {
      IndexAfterRemove(keys, k, x);
      IndexAfterRemove(keys, k, y);
      if k in keys {
        assert IndexOf(keys, k) != IndexOf(keys, x) && IndexOf(keys, k) != IndexOf(keys, y);
      }
    }
  }

  // An id's place in the recency list is the number of distinct ids seen since.
  lemma {:induction false} PlaceIsStackDistance(h: seq<string>, id: string)
    requires id in h
    ensures id in Recent(h)
    ensures IndexOf(Recent(h), id) == |SeenSince(h, id)|
    ensures forall x :: x in SeenSince(h, id) <==> Before(Recent(h), x, id)
  {
    RecentFacts(h);
    var front, last := h[..|h| - 1], h[|h| - 1];
    if last != id {
      assert id in front;
      PlaceIsStackDistance(front, id);
      RecentFacts(front);
      PlaceStep(Recent(front), last, id, SeenSince(front, id));
    }
  }

  lemma PlaceStep(keys: seq<string>, last: string, id: string, seen: set<string>)
    requires Simple(keys) && id in keys && last != id
    requires IndexOf(keys, id) == |seen| && forall x :: x in seen <==> Before(keys, x, id)
    ensures id in Touch(keys, last) && IndexOf(Touch(keys, last), id) == |seen + {last}|
    ensures forall x :: x in seen + {last} <==> Before(Touch(keys, last), x, id)
  {
    var rest := Remove(keys, last);
    IndexAfterRemove(keys, last, id);
    assert Touch(keys, last)[1..] == rest;
    if last in seen {
      assert seen + {last} == seen;
    }
    forall x: string
      ensures x in seen + {last} <==> Before(Touch(keys, last), x, id)
    {
      OrderAfterRemove(keys, last, x, id);
    }
  }

  // The whole-history meaning of a memory hit.
  lemma HitIffFewSeenSince(h: seq<string>, id: string, maxSize: int)
    ensures id in Memory(h, maxSize) <==> id in h && |SeenSince(h, id)| < Capacity(maxSize)
  {
    MemoryIsRecent(h, maxSize);
    RecentFacts(h);
    if id in h {
      PlaceIsStackDistance(h, id);
      var recent, n := Recent(h), Capacity(maxSize);
      var i := IndexOf(recent, id);
      if i < n {
        assert Take(recent, n)[i] == id;
      }
      if id in Take(recent, n) {
        var j :| 0 <= j < |Take(recent, n)| && Take(recent, n)[j] == id;
        assert recent[j] == id;
      }
    }
  }

  lemma {:induction false} SeenSinceWithin(h: seq<string>, id: string, ids: set<string>)
    requires id in h && forall x :: x in h ==> x in ids
    ensures SeenSince(h, id) <= ids - {id}
  {
    if h[|h| - 1] != id {
      assert id in h[..|h| - 1];
      SeenSinceWithin(h[..|h| - 1], id, ids);
    }
  }

  // With room for every distinct id, each id is admitted exactly at its first occurrence.
  lemma EachIdAdmittedOnce(h: seq<string>, id: string, maxSize: int, ids: set<string>)
    requires (forall x :: x in h ==> x in ids) && id in ids && |ids| <= maxSize
    ensures id in Memory(h, maxSize) <==> id in h
  {
    HitIffFewSeenSince(h, id, maxSize);
    if id in h {
      SeenSinceWithin(h, id, ids);
      SubsetSize(SeenSince(h, id), ids - {id});
    }
  }

  lemma {:induction false} SubsetSize(a: set<string>, b: set<string>)
    requires a <= b
    ensures |a| <= |b|
  {
    if x :| x in a {
      SubsetSize(a - {x}, b - {x});
    }
  }
}
