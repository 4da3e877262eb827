/** Replaying a key stream: the caches of all capacities are prefixes of one recency stack. */
module LruSimulation {
  import opened LruCache
  import opened Wrappers

  function Minus(s: seq<string>, key: string): seq<string> {
    if s == [] then [] else (if s[0] == key then [] else [s[0]]) + Minus(s[1..], key)
  }

  /** Every key seen so far, most recent first. */
  function Stack(keys: seq<string>): seq<string> {
    if keys == [] then [] else
      var key := keys[|keys| - 1];
      [key] + Minus(Stack(keys[..|keys| - 1]), key)
  }

  function Take(s: seq<string>, c: nat): seq<string> {
    if |s| <= c then s else s[..c]
  }

  /** How many requests of the stream find their key among the `c` most recent ones. */
  function Hits(keys: seq<string>, c: nat): nat {
    if keys == [] then 0 else
      var before, key := keys[..|keys| - 1], keys[|keys| - 1];
      Hits(before, c) + if key in Take(Stack(before), c) then 1 else 0
  }

  ghost predicate Apart(s: seq<string>) {
    forall i, j :: 0 <= i < j < |s| ==> s[i] != s[j]
  }

  lemma {:induction false} MinusFacts(s: seq<string>, key: string)
    ensures forall x :: x in Minus(s, key) <==> x in s && x != key
    ensures Apart(s) ==> Apart(Minus(s, key))
    ensures key !in s ==> Minus(s, key) == s
  {
    if s != [] {
      MinusFacts(s[1..], key);
      assert s == [s[0]] + s[1..];
      if Apart(s) && s[0] != key {
        var rest := Minus(s[1..], key);
        forall j | 0 <= j < |rest| ensures rest[j] != s[0] {
          assert rest[j] in rest;
        }
      }
    }
  }

  lemma {:induction false} StackIsApart(keys: seq<string>)
    ensures Apart(Stack(keys))
  {
    if keys != [] {
      StackIsApart(keys[..|keys| - 1]);
      MinusFacts(Stack(keys[..|keys| - 1]), keys[|keys| - 1]);
    }
  }

  /** A key behind the first `n` does not change the first `n`. */
  lemma {:induction false} MinusPrefix(s: seq<string>, key: string, n: nat)
    requires Apart(s) && n <= |s| && key !in s[..n]
    ensures n <= |Minus(s, key)| + 1 && (n < |s| || key !in s ==> n <= |Minus(s, key)| || key in s[n..])
    ensures forall m :: 0 <= m <= n && m <= |Minus(s, key)| ==> Minus(s, key)[..m] == s[..m]
    ensures |Minus(s, key)| >= |s| - 1
    decreases |s|
  {
    if s == [] {
    } else if n == 0 {
      MinusPrefix(s[1..], s[0], 0);
      MinusFacts(s[1..], key);
      assert s == [s[0]] + s[1..];
      if s[0] != key {
        MinusPrefix(s[1..], key, 0);
      }
    } else {
      assert s[..n] == [s[0]] + s[1..][..n - 1];
      MinusPrefix(s[1..], key, n - 1);
      assert Minus(s, key) == [s[0]] + Minus(s[1..], key);
      forall m | 0 <= m <= n && m <= |Minus(s, key)| ensures Minus(s, key)[..m] == s[..m] {
        if m > 0 {
          assert Minus(s, key)[..m] == [s[0]] + Minus(s[1..], key)[..m - 1];
          assert s[..m] == [s[0]] + s[1..][..m - 1];
        }
      }
    }
  }

  /** Removing a key from a prefix and from the whole agree on the prefix. */
  lemma {:induction false} MinusInside(s: seq<string>, key: string, c: nat)
    requires Apart(s) && c <= |s| && key in s[..c]
    ensures c <= |Minus(s, key)| + 1 && Minus(s[..c], key) == Minus(s, key)[..c - 1]
    decreases |s|
  {
    var t := s[1..];
    assert s[..c] == [s[0]] + t[..c - 1];
    assert s[..c][1..] == t[..c - 1];
    if s[0] == key {
      MinusFacts(t, key);
      assert key !in t[..c - 1];
      MinusFacts(t[..c - 1], key);
    } else {
      MinusInside(t, key, c - 1);
      assert Minus(s, key) == [s[0]] + Minus(t, key);
    }
  }

  /** What one access does to a cache of capacity `c`: on a hit the key moves to the front, on a miss
      it enters and the last key makes room. */
  function Access(cached: seq<string>, c: nat, key: string): seq<string> {
    if key in cached then [key] + Minus(cached, key)
    else [key] + if |cached| >= c && cached != [] then cached[..|cached| - 1] else cached
  }

  /** The stack property: the cache of any capacity is that long a prefix of the same stack. */
  lemma StackProperty(stack: seq<string>, c: nat, key: string)
    requires Apart(stack) && c > 0
    ensures Access(Take(stack, c), c, key) == Take([key] + Minus(stack, key), c)
  {
    var cached := Take(stack, c);
    if |stack| <= c {
      MinusFacts(stack, key);
      if key !in stack && |stack| == c {
        assert ([key] + stack)[..c] == [key] + stack[..c - 1];
      } else if key in stack {
        var i :| 0 <= i < |stack| && stack[i] == key;
        ShorterByOne(stack, key);
      }
    } else if key in cached {
      MinusInside(stack, key, c);
      assert ([key] + Minus(stack, key))[..c] == [key] + Minus(stack, key)[..c - 1];
      MinusFacts(stack, key);
      ShorterByOne(stack, key);
    } else {
      MinusPrefix(stack, key, c);
      assert Minus(stack, key)[..c - 1] == stack[..c - 1] == cached[..c - 1];
      assert ([key] + Minus(stack, key))[..c] == [key] + Minus(stack, key)[..c - 1];
    }
  }

  lemma {:induction false} ShorterByOne(s: seq<string>, key: string)
    requires Apart(s) && key in s
    ensures |Minus(s, key)| == |s| - 1
  {
    if s[0] == key {
      MinusFacts(s[1..], key);
    } else {
      ShorterByOne(s[1..], key);
    }
  }

  /** A larger cache never hits less often on the same stream. */
  lemma {:induction false} HitsNeverDecrease(keys: seq<string>, c: nat, d: nat)
    requires c <= d
    ensures Hits(keys, c) <= Hits(keys, d)
  {
    if keys != [] {
      var before, key := keys[..|keys| - 1], keys[|keys| - 1];
      HitsNeverDecrease(before, c, d);
      var stack := Stack(before);
      if key in Take(stack, c) {
        var i :| 0 <= i < |Take(stack, c)| && Take(stack, c)[i] == key;
        assert Take(stack, d)[i] == key;
      }
    }
  }

  // ---------------------------------------------------------------- the loop over a real cache

  /** The entries a simulation leaves: every value is "1" and nothing expires. */
  ghost function EntriesOf(keys: seq<string>): seq<Entry> {
    seq(|keys|, i requires 0 <= i < |keys| => Entry(keys[i], "1", None))
  }

  lemma {:induction false} EntriesWithout(keys: seq<string>, key: string)
    ensures Without(EntriesOf(keys), key) == EntriesOf(Minus(keys, key))
  {
    if keys != [] {
      assert EntriesOf(keys)[1..] == EntriesOf(keys[1..]);
      EntriesWithout(keys[1..], key);
    }
  }

  lemma EntriesHave(keys: seq<string>, key: string)
    ensures Has(EntriesOf(keys), key) <==> key in keys
    ensures key in keys ==> Entry(key, "1", None) in EntriesOf(keys)
  {
    if key in keys {
      var i :| 0 <= i < |keys| && keys[i] == key;
      assert EntriesOf(keys)[i] == Entry(key, "1", None);
    }
  }

  /** What `Get` and then, on a miss, `Put` leave of a simulation's cache is one access. */
  lemma AccessEntries(cached: seq<string>, c: nat, key: string)
    ensures key in cached ==>
              EntriesOf(Access(cached, c, key)) == [Entry(key, "1", None)] + Without(EntriesOf(cached), key)
    ensures key !in cached && |cached| < c ==>
              EntriesOf(Access(cached, c, key)) == [Entry(key, "1", None)] + EntriesOf(cached)
    ensures |EntriesOf(cached)| == |cached|
    ensures key !in cached && |cached| >= c && cached != [] ==>
              EntriesOf(Access(cached, c, key)) == [Entry(key, "1", None)] + EntriesOf(cached)[..|cached| - 1]
  {
    hide EntriesOf;
    EntriesWithout(cached, key);
    EntriesPrefix(cached, |cached|);
    if key in cached {
      PushEntry(key, Minus(cached, key));
    } else if |cached| < c || cached == [] {
      PushEntry(key, cached);
    } else {
      PushEntry(key, cached[..|cached| - 1]);
      EntriesPrefix(cached, |cached| - 1);
    }
  }

  lemma PushEntry(key: string, rest: seq<string>)
    ensures EntriesOf([key] + rest) == [Entry(key, "1", None)] + EntriesOf(rest)
  {
  }

  lemma EntriesPrefix(s: seq<string>, n: nat)
    requires n <= |s|
    ensures |EntriesOf(s)| == |s| && EntriesOf(s[..n]) == EntriesOf(s)[..n]
  {
  }

  /** Replay the stream through a cache of the given capacity and count the hits. */
  method SimulateHits(keys: seq<string>, capacity: nat, now: int) returns (hits: nat, total: nat)
    requires capacity > 0
    ensures hits == Hits(keys, capacity) && total == |keys|
  {
    hide *;
    var cache := new Cache(capacity);
    StreamStart(keys, capacity);
    for i := 0 to |keys|
      invariant cache.Valid() && fresh(cache) && fresh(cache.sentinel)
      invariant (forall n :: n in cache.order ==> fresh(n)) &&
                (forall n :: 0 <= n < |cache.order| ==> fresh(cache.order[n]))
      invariant cache.capacity == capacity && cache.hits == Hits(keys[..i], capacity) && cache.hits + cache.misses == i
      invariant cache.Entries() == EntriesOf(Take(Stack(keys[..i]), capacity))
    {
      ghost var stack, before := Stack(keys[..i]), cache.order;
      StreamStep(keys, capacity, i);
      TakeSize(stack, capacity);
      Request(cache, keys[i], now, Take(stack, capacity));
      assert forall n :: n in cache.order ==> n in before || fresh(n);
      assert forall n :: 0 <= n < |cache.order| ==> cache.order[n] in cache.order;
    }
    assert keys[..|keys|] == keys;
    return cache.hits, cache.hits + cache.misses;
  }

  /** Cache-aside: look the key up and store it on a miss. */
  method Request(cache: Cache, key: string, now: int, ghost cached: seq<string>)
    requires cache.Valid() && cache.Entries() == EntriesOf(cached) &&
             |cached| == |EntriesOf(cached)| <= cache.capacity && cache.capacity > 0
    modifies cache, cache.sentinel, cache.order
    ensures cache.Valid() && cache.Entries() == EntriesOf(Access(cached, cache.capacity, key))
    ensures cache.hits == old(cache.hits) + (if key in cached then 1 else 0)
    ensures cache.hits + cache.misses == old(cache.hits + cache.misses) + 1
    ensures forall n :: n in cache.order ==> n in old(cache.order) || fresh(n)
  {
    hide *;
    EntriesHave(cached, key);
    AccessEntries(cached, cache.capacity, key);
    NeverExpires(key, now);
    var value := cache.Get(key, None, now);
    if value.None? {
      assert forall n :: 0 <= n < |cache.order| ==> cache.order[n] in cache.order;
      var ok := cache.Put(key, "1", None, now);
    }
  }

  lemma NeverExpires(key: string, now: int)
    ensures !Expired(Entry(key, "1", None), now)
  {
  }

  lemma TakeSize(s: seq<string>, c: nat)
    ensures |EntriesOf(Take(s, c))| == |Take(s, c)| <= c
  {
  }

  lemma StreamStart(keys: seq<string>, c: nat)
    ensures Hits(keys[..0], c) == 0 && EntriesOf(Take(Stack(keys[..0]), c)) == []
  {
  }

  lemma StreamStep(keys: seq<string>, c: nat, i: nat)
    requires i < |keys| && c > 0
    ensures var cached := Take(Stack(keys[..i]), c);
            && Hits(keys[..i + 1], c) == Hits(keys[..i], c) + (if keys[i] in cached then 1 else 0)
            && Take(Stack(keys[..i + 1]), c) == Access(cached, c, keys[i])
  {
    assert keys[..i + 1][..i] == keys[..i];
    StackIsApart(keys[..i]);
    StackProperty(Stack(keys[..i]), c, keys[i]);
  }
}
