/** A least-recently-used cache: a map of nodes on a circular doubly linked list with a sentinel. */
module LruCache {
  import opened Wrappers

  /** What a cache entry stands for; the list keeps them most recently used first. */
  datatype Entry = Entry(key: string, value: string, expiresAt: Option<int>)

  predicate Expired(e: Entry, now: int) {
    e.expiresAt.Some? && now >= e.expiresAt.value
  }

  ghost predicate Has(s: seq<Entry>, key: string) {
    exists i :: 0 <= i < |s| && s[i].key == key
  }

  /** The entries of other keys, in order. */
  ghost function Without(s: seq<Entry>, key: string): seq<Entry> {
    if s == [] then [] else (if s[0].key == key then [] else [s[0]]) + Without(s[1..], key)
  }

  ghost predicate DistinctKeys(s: seq<Entry>) {
    forall i, j :: 0 <= i < j < |s| ==> s[i].key != s[j].key
  }

  lemma {:induction false} WithoutAt(s: seq<Entry>, i: nat)
    requires DistinctKeys(s) && i < |s|
    ensures Without(s, s[i].key) == s[..i] + s[i + 1..]
  {
    if i == 0 {
      WithoutAbsent(s[1..], s[0].key);
    } else {
      WithoutAt(s[1..], i - 1);
      assert s[..i] == [s[0]] + s[1..][..i - 1] && s[1..][i..] == s[i + 1..];
    }
  }

  lemma {:induction false} WithoutAbsent(s: seq<Entry>, key: string)
    requires !Has(s, key)
    ensures Without(s, key) == s
  {
    if s != [] {
      forall i | 0 <= i < |s| - 1 ensures s[1..][i].key != key {
        assert s[i + 1].key != key;
      }
      WithoutAbsent(s[1..], key);
    }
  }

  // ---------------------------------------------------------------- the linked list

  class Node {
    var key: string
    var value: string
    var expiresAt: Option<int>
    var prev: Node
    var next: Node

    constructor (key: string, value: string, expiresAt: Option<int>)
      ensures this.key == key && this.value == value && this.expiresAt == expiresAt && prev == next == this
    {
      this.key, this.value, this.expiresAt := key, value, expiresAt;
      prev, next := this, this;
    }

    ghost function Content(): Entry
      reads this
    {
      Entry(key, value, expiresAt)
    }

    method Unlink()
      modifies prev`next, next`prev
      ensures old(prev).next == old(next) && old(next).prev == old(prev)
    {
      prev.next := next;
      next.prev := prev;
    }

    method InsertAfter(anchor: Node)
      requires anchor != this
      modifies this`prev, this`next, anchor`next, anchor.next`prev
      ensures old(anchor.next) != this ==>
                prev == anchor && next == old(anchor.next) && anchor.next == this && next.prev == this
    {
      prev := anchor;
      next := anchor.next;
      anchor.next.prev := this;
      anchor.next := this;
    }
  }

  /** Neighbours along a walk point at each other. */
  ghost predicate Chained(walk: seq<Node>)
    reads walk
  {
    forall i :: 0 <= i < |walk| - 1 ==> walk[i].next == walk[i + 1] && walk[i + 1].prev == walk[i]
  }

  ghost predicate Distinct(nodes: seq<Node>) {
    forall i, j :: 0 <= i < j < |nodes| ==> nodes[i] != nodes[j]
  }

  /** Once around the ring, back to the sentinel. */
  ghost function Ring(sentinel: Node, order: seq<Node>): seq<Node> {
    [sentinel] + order + [sentinel]
  }

  ghost function Contents(order: seq<Node>): (s: seq<Entry>)
    reads order
    ensures |s| == |order| && forall i :: 0 <= i < |s| ==> s[i] == order[i].Content()
  {
    seq(|order|, i requires 0 <= i < |order| reads order => order[i].Content())
  }

  /** The map finds exactly the listed nodes, each under its own key. */
  ghost predicate Mapped(nodes: map<string, Node>, order: seq<Node>, entries: seq<Entry>) {
    && |entries| == |order| == |nodes|
    && (forall i :: 0 <= i < |order| ==> entries[i].key in nodes && nodes[entries[i].key] == order[i])
    && nodes.Keys == KeysOf(entries)
  }

  ghost function KeysOf(entries: seq<Entry>): set<string> {
    set e | e in entries :: e.key
  }

  lemma KeysCut(entries: seq<Entry>, i: nat)
    requires DistinctKeys(entries) && i < |entries|
    ensures KeysOf(Cut(entries, i)) == KeysOf(entries) - {entries[i].key}
  {
    var cut := Cut(entries, i);
    forall k ensures k in KeysOf(cut) <==> k in KeysOf(entries) - {entries[i].key} {
      if k in KeysOf(entries) && k != entries[i].key {
        var j :| 0 <= j < |entries| && entries[j].key == k;
        assert cut[if j < i then j else j - 1] == entries[j];
      }
    }
  }

  function Cut<T>(s: seq<T>, i: nat): seq<T>
    requires i < |s|
  {
    s[..i] + s[i + 1..]
  }

  lemma MappedKeys(nodes: map<string, Node>, order: seq<Node>, entries: seq<Entry>)
    requires Mapped(nodes, order, entries) && Distinct(order)
    ensures DistinctKeys(entries)
    ensures forall key :: key in nodes <==> Has(entries, key)
    ensures order == [] <==> nodes == map[]
  {
    forall i, j | 0 <= i < j < |entries| ensures entries[i].key != entries[j].key {
      assert nodes[entries[i].key] == order[i] && nodes[entries[j].key] == order[j];
    }
    forall key ensures key in nodes <==> Has(entries, key) {
    }
  }

  lemma MappedAt(nodes: map<string, Node>, order: seq<Node>, entries: seq<Entry>, key: string) returns (i: nat)
    requires Mapped(nodes, order, entries) && Distinct(order) && key in nodes
    ensures i < |order| == |entries| && order[i] == nodes[key] && entries[i].key == key
    ensures Without(entries, key) == Cut(entries, i)
    ensures forall j :: 0 <= j < |entries| && entries[j].key == key ==> j == i
    ensures Has(entries, key)
  {
    assert key in KeysOf(entries);
    i :| 0 <= i < |entries| && entries[i].key == key;
    MappedKeys(nodes, order, entries);
    WithoutAt(entries, i);
  }

  lemma MappedDrop(nodes: map<string, Node>, order: seq<Node>, entries: seq<Entry>, i: nat)
    requires Mapped(nodes, order, entries) && Distinct(order) && i < |order|
    ensures Mapped(nodes - {entries[i].key}, Cut(order, i), Cut(entries, i)) &&
            |nodes - {entries[i].key}| == |nodes| - 1
  {
    hide *;
    MappedSizes(nodes, order, entries, i);
    MappedKeys(nodes, order, entries);
    var key := entries[i].key;
    var rest, o, e := nodes - {key}, Cut(order, i), Cut(entries, i);
    KeysCut(entries, i);
    CutSize(order, i);
    CutSize(entries, i);
    OneLess(nodes, key);
    forall j | 0 <= j < |o| ensures e[j].key in rest && rest[e[j].key] == o[j] {
      var k := if j < i then j else j + 1;
      CutAt(order, i, j);
      CutAt(entries, i, j);
      MappedDropAt(nodes, order, entries, i, k);
    }
    MappedFrom(rest, o, e);
  }

  lemma MappedSizes(nodes: map<string, Node>, order: seq<Node>, entries: seq<Entry>, i: nat)
    requires Mapped(nodes, order, entries) && i < |order|
    ensures |entries| == |order| == |nodes| && nodes.Keys == KeysOf(entries) && entries[i].key in nodes
  {
  }

  lemma MappedFrom(nodes: map<string, Node>, order: seq<Node>, entries: seq<Entry>)
    requires |entries| == |order| == |nodes| && nodes.Keys == KeysOf(entries)
    requires forall i :: 0 <= i < |order| ==> entries[i].key in nodes && nodes[entries[i].key] == order[i]
    ensures Mapped(nodes, order, entries)
  {
  }

  lemma MappedDropAt(nodes: map<string, Node>, order: seq<Node>, entries: seq<Entry>, i: nat, k: nat)
    requires Mapped(nodes, order, entries) && DistinctKeys(entries) && i < |order| && k < |order| && k != i
    ensures entries[k].key in nodes - {entries[i].key} && (nodes - {entries[i].key})[entries[k].key] == order[k]
  {
    assert entries[k].key != entries[i].key;
  }

  lemma OneLess(nodes: map<string, Node>, key: string)
    requires key in nodes
    ensures (nodes - {key}).Keys == nodes.Keys - {key} && |nodes - {key}| == |nodes| - 1
  {
    assert (nodes - {key}).Keys == nodes.Keys - {key};
  }

  lemma CutSize<T>(s: seq<T>, i: nat)
    requires i < |s|
    ensures |Cut(s, i)| == |s| - 1
  {
  }

  lemma CutAt<T>(s: seq<T>, i: nat, j: nat)
    requires i < |s| && j < |s| - 1
    ensures |Cut(s, i)| == |s| - 1 && Cut(s, i)[j] == if j < i then s[j] else s[j + 1]
  {
  }

  lemma MappedPush(nodes: map<string, Node>, order: seq<Node>, entries: seq<Entry>, node: Node, e: Entry)
    requires Mapped(nodes, order, entries) && e.key !in nodes
    ensures Mapped(nodes[e.key := node], [node] + order, [e] + entries) && |nodes[e.key := node]| == |nodes| + 1
  {
    var n, o, x := nodes[e.key := node], [node] + order, [e] + entries;
    OneMore(nodes, e.key, node);
    KeysOfPush(entries, e);
    hide KeysOf;
    forall i | 0 <= i < |o| ensures x[i].key in n && n[x[i].key] == o[i] {
      if i > 0 {
        assert x[i] == entries[i - 1] && o[i] == order[i - 1];
      }
    }
  }

  lemma OneMore(nodes: map<string, Node>, key: string, node: Node)
    requires key !in nodes
    ensures nodes[key := node].Keys == nodes.Keys + {key} && |nodes[key := node]| == |nodes| + 1
  {
    assert nodes[key := node].Keys == nodes.Keys + {key};
  }

  lemma KeysOfPush(entries: seq<Entry>, e: Entry)
    ensures KeysOf([e] + entries) == KeysOf(entries) + {e.key}
  {
  }

  /** Moving a node to the front, its entry changed or not, keeps the map right. */
  lemma MappedFront(nodes: map<string, Node>, order: seq<Node>, entries: seq<Entry>, i: nat, e: Entry)
    requires Mapped(nodes, order, entries) && Distinct(order) && i < |order| && e.key == entries[i].key
    ensures Mapped(nodes, [order[i]] + Cut(order, i), [e] + Cut(entries, i))
  {
    MappedDrop(nodes, order, entries, i);
    var rest := nodes - {e.key};
    MappedPush(rest, Cut(order, i), Cut(entries, i), order[i], e);
    assert rest[e.key := order[i]] == nodes;
  }

  class Cache {
    const capacity: nat
    const sentinel: Node
    var nodes: map<string, Node>
    var hits: nat
    var misses: nat
    var evictions: nat
    var expirations: nat
    ghost var order: seq<Node>  // most recently used first

    /** The list is a ring through the sentinel. */
    ghost predicate Listed()
      reads this`order, sentinel, order
    {
      sentinel !in order && Distinct(order) && Chained(Ring(sentinel, order))
    }

    ghost predicate Valid()
      reads this`nodes, this`order, sentinel, order
    {
      capacity > 0 && |nodes| <= capacity && Listed() && Mapped(nodes, order, Contents(order))
    }

    /** The entries, most recently used first. */
    ghost function Entries(): (s: seq<Entry>)
      reads this`order, order
      ensures s == Contents(order)
    {
      Contents(order)
    }

    constructor (capacity: nat)
      requires capacity > 0
      ensures Valid() && this.capacity == capacity && Entries() == [] && fresh(sentinel) && order == []
      ensures hits == misses == evictions == expirations == 0
    {
      this.capacity := capacity;
      nodes, order := map[], [];
      hits, misses, evictions, expirations := 0, 0, 0, 0;
      sentinel := new Node("", "", None);
    }

    /** Take the `i`-th node off the list. */
    method Detach(node: Node, ghost i: nat)
      requires Listed() && i < |order| && order[i] == node
      modifies this`order, sentinel, order
      ensures Listed() && order == Cut(old(order), i) && Entries() == Cut(old(Entries()), i)
      ensures node !in order && node != sentinel && node.Content() == old(node.Content())
    {
      ghost var before, was := order, Entries();
      Rewire(node, i);
      DetachedMembers(before, i);
    }

    method Rewire(node: Node, ghost i: nat)
      requires Listed() && i < |order| && order[i] == node
      modifies this`order, sentinel, order
      ensures Listed() && order == Cut(old(order), i)
      ensures forall n :: n in old(order) ==> n.Content() == old(n.Content())
    {
      ghost var ring := Ring(sentinel, order);
      assert ring[i + 1] == node && node.prev == ring[i] && node.next == ring[i + 2];
      RingIsDistinct(sentinel, order);
      node.Unlink();
      ghost var rest := Cut(order, i);
      ghost var ring' := ring[..i + 1] + ring[i + 2..];
      assert Ring(sentinel, rest) == ring';
      forall k | 0 <= k < |ring'| - 1 ensures ring'[k].next == ring'[k + 1] && ring'[k + 1].prev == ring'[k] {
        assert ring'[k] == (if k <= i then ring[k] else ring[k + 1]) && ring'[k + 1] ==
               if k < i then ring[k + 1] else ring[k + 2];
      }
      DetachedMembers(order, i);
      order := rest;
    }

    /** Put a node that is not on the list at its front. */
    method Attach(node: Node)
      requires Listed() && node !in order && node != sentinel
      modifies this`order, sentinel, order, node
      ensures Listed() && order == [node] + old(order)
      ensures Entries() == [old(node.Content())] + old(Entries())
    {
      ghost var ring := Ring(sentinel, order);
      assert ring[0] == sentinel && sentinel.next == ring[1];
      RingIsDistinct(sentinel, order);
      node.InsertAfter(sentinel);
      assert Ring(sentinel, [node] + order) == [sentinel, node] + ring[1..];
      order := [node] + order;
    }

    lemma Unpack()
      requires Valid()
      ensures capacity > 0 && |nodes| <= capacity && Listed() && Mapped(nodes, order, Entries()) && Distinct(order)
      ensures |Entries()| == |order| == |nodes|
    {
    }

    lemma Repack()
      requires capacity > 0 && |nodes| <= capacity && Listed() && Mapped(nodes, order, Entries())
      ensures Valid()
    {
    }

    /** Unlink a node and link it again at the front. */
    method MoveToFront(node: Node, ghost i: nat)
      requires Listed() && i < |order| && order[i] == node
      modifies this`order, sentinel, order
      ensures Listed() && order == [node] + Cut(old(order), i) &&
              Entries() == [old(node.Content())] + Cut(old(Entries()), i)
    {
      hide Listed, Contents;
      Detach(node, i);
      Attach(node);
    }

    /** Off the map and off the list. */
    method Drop(node: Node, key: string, ghost i: nat)
      requires Valid() && i < |order| && order[i] == node && Entries()[i].key == key
      modifies this`nodes, this`order, sentinel, order
      ensures Valid() && order == Cut(old(order), i) && Entries() == Cut(old(Entries()), i)
      ensures nodes == old(nodes) - {key} && |nodes| == |old(nodes)| - 1 && node.Content() == old(node.Content())
    {
      hide *;
      Unpack();
      MappedDrop(nodes, order, Entries(), i);
      nodes := nodes - {key};
      Detach(node, i);
      Repack();
    }

    /** The value, moved to the front; the default on a miss or for an entry whose time is up. */
    method Get(key: string, default: Option<string>, now: int) returns (value: Option<string>)
      requires Valid()
      modifies this, sentinel, order
      ensures Valid() && (forall n :: n in order ==> n in old(order)) && evictions == old(evictions)
      ensures !Has(old(Entries()), key) ==>
                && value == default && Entries() == old(Entries())
                && misses == old(misses) + 1 && hits == old(hits) && expirations == old(expirations)
      ensures forall e :: e in old(Entries()) && e.key == key ==>
                if Expired(e, now) then
                  && value == default && Entries() == Without(old(Entries()), key)
                  && misses == old(misses) + 1 && hits == old(hits) && expirations == old(expirations) + 1
                else
                  && value == Some(e.value) && Entries() == [e] + Without(old(Entries()), key)
                  && misses == old(misses) && hits == old(hits) + 1 && expirations == old(expirations)
    {
      hide *;
      Unpack();
      MappedKeys(nodes, order, Entries());
      if key !in nodes {
        misses := misses + 1;
        NoEntry(old(Entries()), key);
        return default;
      }
      ghost var i := MappedAt(nodes, order, Entries(), key);
      OnlyEntry(Entries(), i);
      value := Answer(nodes[key], key, i, default, now);
    }

    /** A key that is there: drop it if its time is up, else it becomes the most recent. */
    method Answer(node: Node, key: string, ghost i: nat, default: Option<string>, now: int)
        returns (value: Option<string>)
      requires Valid() && i < |order| && order[i] == node && Entries()[i].key == key
      modifies this, sentinel, order
      ensures Valid() && (forall n :: n in order ==> n in old(order)) && evictions == old(evictions)
      ensures Entries() == (if Expired(old(Entries())[i], now) then [] else [old(Entries())[i]]) +
              Cut(old(Entries()), i)
      ensures value == if Expired(old(Entries())[i], now) then default else Some(old(Entries())[i].value)
      ensures hits == if Expired(old(Entries())[i], now) then old(hits) else old(hits) + 1
      ensures misses == if Expired(old(Entries())[i], now) then old(misses) + 1 else old(misses)
      ensures expirations == if Expired(old(Entries())[i], now) then old(expirations) + 1 else old(expirations)
    {
      hide *;
      ContentAt(order, i);
      CutMembers(order, i);
      IsExpired(node.Content(), now);
      if node.expiresAt.Some? && now >= node.expiresAt.value {
        Drop(node, key, i);
        expirations := expirations + 1;
        misses := misses + 1;
        return default;
      }
      Touch(node, i);
      hits := hits + 1;
      return Some(node.value);
    }

    /** Move a valid entry's node to the front. */
    method Touch(node: Node, ghost i: nat)
      requires Valid() && i < |order| && order[i] == node
      modifies this`order, sentinel, order
      ensures Valid() && order == [node] + Cut(old(order), i) &&
              Entries() == [old(node.Content())] + Cut(old(Entries()), i)
      ensures node.value == old(node.value)
    {
      hide *;
      Unpack();
      ContentAt(order, i);
      MappedFront(nodes, order, Entries(), i, node.Content());
      MoveToFront(node, i);
      Repack();
      ContentAt(order, 0);
    }

    /** Insert or overwrite at the front; when full, the entry at the back makes room. */
    method Put(key: string, value: string, ttl: Option<int>, now: int) returns (ok: bool)
      requires Valid()
      modifies this, sentinel, order
      ensures Valid() && (ok <==> ttl.None? || ttl.value > 0) && hits == old(hits) && misses == old(misses)
      ensures forall n :: n in order ==> n in old(order) || fresh(n)
      ensures !ok ==> Entries() == old(Entries()) && evictions == old(evictions) && expirations == old(expirations)
      ensures ok ==>
                var s := old(Entries());
                var e := Entry(key, value, if ttl.None? then None else Some(now + ttl.value));
                if Has(s, key) then
                  Entries() == [e] + Without(s, key) && evictions == old(evictions) && expirations == old(expirations)
                else if |s| < capacity then
                  Entries() == [e] + s && evictions == old(evictions) && expirations == old(expirations)
                else
                  && Entries() == [e] + s[..|s| - 1]
                  && evictions == old(evictions) + (if Expired(s[|s| - 1], now) then 0 else 1)
                  && expirations == old(expirations) + (if Expired(s[|s| - 1], now) then 1 else 0)
    {
      hide *;
      if ttl.Some? && ttl.value <= 0 {
        return false;
      }
      var expiresAt: Option<int> := if ttl.None? then None else Some(now + ttl.value);
      Unpack();
      MappedKeys(nodes, order, Entries());
      if key in nodes {
        Overwrite(key, value, expiresAt);
        return true;
      }
      if |nodes| >= capacity {
        Evict(now);
        Unpack();
        MappedKeys(nodes, order, Entries());
        NotInPrefix(old(Entries()), key);
      }
      Insert(key, value, expiresAt);
      return true;
    }

    method Overwrite(key: string, value: string, expiresAt: Option<int>)
      requires Valid() && key in nodes
      modifies this`order, sentinel, order
      ensures Valid() && (forall n :: n in order ==> n in old(order))
      ensures Entries() == [Entry(key, value, expiresAt)] + Without(old(Entries()), key)
    {
      hide *;
      Unpack();
      ghost var i := MappedAt(nodes, order, Entries(), key);
      var node := nodes[key];
      ContentAt(order, i);
      CutMembers(order, i);
      ghost var before := Entries();
      MappedFront(nodes, order, before, i, Entry(key, value, expiresAt));
      Rewrite(node, value, expiresAt, i);
      MoveToFront(node, i);
      CutOfUpdate(before, i, Entry(key, value, expiresAt));
      Repack();
    }

    method Rewrite(node: Node, value: string, expiresAt: Option<int>, ghost i: nat)
      requires Listed() && i < |order| && order[i] == node
      modifies node`value, node`expiresAt
      ensures Listed() && Entries() == old(Entries())[i := Entry(old(node.key), value, expiresAt)]
      ensures node.Content() == Entry(old(node.key), value, expiresAt)
    {
      node.value := value;
      node.expiresAt := expiresAt;
    }

    /** Drop the least recently used entry, and say why. */
    method Evict(now: int)
      requires Valid() && |nodes| >= capacity
      modifies this, sentinel, order
      ensures Valid() && |nodes| == |old(nodes)| - 1 && hits == old(hits) && misses == old(misses)
      ensures |old(order)| == |old(Entries())| > 0 && order == old(order)[..|old(order)| - 1]
      ensures Entries() == old(Entries())[..|old(Entries())| - 1]
      ensures var last := old(Entries())[|old(Entries())| - 1];
              && evictions == old(evictions) + (if Expired(last, now) then 0 else 1)
              && expirations == old(expirations) + (if Expired(last, now) then 1 else 0)
    {
      hide *;
      Unpack();
      var victim := sentinel.prev;
      ghost var i := |order| - 1;
      LastIsBefore(sentinel, order);
      ContentAt(order, i);
      CutLast(order);
      CutLast(Entries());
      IsExpired(victim.Content(), now);
      Drop(victim, victim.key, i);
      NodeContent(victim);
      if victim.expiresAt.Some? && now >= victim.expiresAt.value {
        expirations := expirations + 1;
      } else {
        evictions := evictions + 1;
      }
    }

    lemma LastIsBefore(sentinel: Node, order: seq<Node>)
      requires sentinel == this.sentinel && order == this.order && Listed() && order != []
      ensures sentinel.prev == order[|order| - 1]
    {
      var ring := Ring(sentinel, order);
      assert ring[|order| + 1].prev == ring[|order|];
    }

    method Insert(key: string, value: string, expiresAt: Option<int>)
      requires Valid() && key !in nodes && |nodes| < capacity
      modifies this`nodes, this`order, sentinel, order
      ensures Valid() && Entries() == [Entry(key, value, expiresAt)] + old(Entries())
      ensures forall n :: n in order ==> n in old(order) || fresh(n)
    {
      hide *;
      Unpack();
      var node := new Node(key, value, expiresAt);
      MappedPush(nodes, order, Entries(), node, Entry(key, value, expiresAt));
      nodes := nodes[key := node];
      NodeContent(node);
      Attach(node);
      Repack();
    }

    /** Remove an entry, live or not. */
    method Delete(key: string) returns (present: bool)
      requires Valid()
      modifies this`nodes, this`order, sentinel, order
      ensures Valid() && (present <==> Has(old(Entries()), key)) && Entries() == Without(old(Entries()), key)
      ensures forall n :: n in order ==> n in old(order)
    {
      hide *;
      Unpack();
      MappedKeys(nodes, order, Entries());
      if key !in nodes {
        WithoutAbsent(Entries(), key);
        return false;
      }
      ghost var i := MappedAt(nodes, order, Entries(), key);
      CutMembers(order, i);
      var node := nodes[key];
      Drop(node, key, i);
      return true;
    }

    /** True for a live entry; changes nothing. */
    method Contains(key: string, now: int) returns (live: bool)
      requires Valid()
      ensures live <==> exists e :: e in Entries() && e.key == key && !Expired(e, now)
    {
      hide *;
      Unpack();
      MappedKeys(nodes, order, Entries());
      if key !in nodes {
        NoEntry(Entries(), key);
        return false;
      }
      ghost var i := MappedAt(nodes, order, Entries(), key);
      var node := nodes[key];
      ContentAt(order, i);
      OnlyEntry(Entries(), i);
      IsExpired(node.Content(), now);
      assert Entries()[i] in Entries();
      return !(node.expiresAt.Some? && now >= node.expiresAt.value);
    }

    /** Live keys from most to least recently used, by walking the ring. */
    method Keys(now: int) returns (keys: seq<string>)
      requires Valid()
      ensures keys == LiveKeys(Entries(), now)
    {
      hide *;
      Unpack();
      keys := [];
      var node := sentinel.next;
      ghost var i := 0;
      WalkStart();
      NoKeys(Entries(), now);
      while node != sentinel
        invariant i <= |order| && |Entries()| == |order|
        invariant node == Ring(sentinel, order)[i + 1] && |Ring(sentinel, order)| == |order| + 2
        invariant i < |order| ==> node == order[i]
        invariant i == |order| ==> node == sentinel
        invariant keys == LiveKeys(Entries()[..i], now)
        decreases |order| - i
      {
        WalkOn(i);
        ContentAt(order, i);
        IsExpired(node.Content(), now);
        NextKey(Entries(), now, i);
        if !(node.expiresAt.Some? && now >= node.expiresAt.value) {
          keys := keys + [node.key];
        }
        node := node.next;
        i := i + 1;
      }
      NotSentinel(i);
      assert Entries()[..i] == Entries();
    }

    lemma WalkStart()
      requires Valid()
      ensures |Ring(sentinel, order)| == |order| + 2 && sentinel.next == Ring(sentinel, order)[1]
      ensures order != [] ==> sentinel.next == order[0]
      ensures order == [] ==> sentinel.next == sentinel
    {
      assert Ring(sentinel, order)[0] == sentinel;
    }

    lemma WalkOn(i: nat)
      requires Valid() && i < |order|
      ensures |Ring(sentinel, order)| == |order| + 2 && order[i].next == Ring(sentinel, order)[i + 2]
      ensures i + 1 < |order| ==> order[i].next == order[i + 1]
      ensures i + 1 == |order| ==> order[i].next == sentinel
    {
      assert Ring(sentinel, order)[i + 1] == order[i];
    }

    lemma NotSentinel(i: nat)
      requires Valid() && i <= |order|
      ensures i < |order| ==> order[i] != sentinel
    {
    }
  }

  /** The keys of the entries that are not expired, in order. */
  ghost function LiveKeys(s: seq<Entry>, now: int): seq<string> {
    if s == [] then [] else
      LiveKeys(s[..|s| - 1], now) + if Expired(s[|s| - 1], now) then [] else [s[|s| - 1].key]
  }

  lemma NoKeys(s: seq<Entry>, now: int)
    ensures LiveKeys(s[..0], now) == []
  {
  }

  lemma NextKey(s: seq<Entry>, now: int, i: nat)
    requires i < |s|
    ensures LiveKeys(s[..i + 1], now) ==
            if Expired(s[i], now) then LiveKeys(s[..i], now) else LiveKeys(s[..i], now) + [s[i].key]
  {
    assert s[..i + 1][..i] == s[..i];
  }

  lemma CutOfUpdate(s: seq<Entry>, i: nat, e: Entry)
    requires i < |s|
    ensures Cut(s[i := e], i) == Cut(s, i)
  {
  }

  lemma CutLast<T>(s: seq<T>)
    ensures s != [] ==> Cut(s, |s| - 1) == s[..|s| - 1]
  {
  }

  lemma NotInPrefix(s: seq<Entry>, key: string)
    requires !Has(s, key)
    ensures s != [] ==> !Has(s[..|s| - 1], key)
  {
  }

  lemma NoEntry(s: seq<Entry>, key: string)
    requires !Has(s, key)
    ensures forall e :: e in s ==> e.key != key
  {
  }

  lemma OnlyEntry(s: seq<Entry>, i: nat)
    requires i < |s| && forall j :: 0 <= j < |s| && s[j].key == s[i].key ==> j == i
    ensures forall e :: e in s && e.key == s[i].key ==> e == s[i]
  {
  }

  lemma ContentAt(order: seq<Node>, i: nat)
    requires i < |order|
    ensures Contents(order)[i] == order[i].Content() == Entry(order[i].key, order[i].value, order[i].expiresAt)
  {
  }

  lemma NodeContent(node: Node)
    ensures node.Content() == Entry(node.key, node.value, node.expiresAt)
  {
  }

  lemma IsExpired(e: Entry, now: int)
    ensures Expired(e, now) <==> e.expiresAt.Some? && now >= e.expiresAt.value
  {
  }

  lemma CutMembers(order: seq<Node>, i: nat)
    requires i < |order|
    ensures forall n :: n in Cut(order, i) ==> n in order
    ensures forall n :: n in [order[i]] + Cut(order, i) ==> n in order
  {
  }

  lemma RingIsDistinct(sentinel: Node, order: seq<Node>)
    requires sentinel !in order && Distinct(order)
    ensures var ring := Ring(sentinel, order); var n := |ring| - 1;
            && (forall i, j :: 0 <= i < j < n ==> ring[i] != ring[j])
            && (forall i, j :: 0 < i < j <= n ==> ring[i] != ring[j])
  {
  }

  lemma DetachedMembers(order: seq<Node>, i: nat)
    requires Distinct(order) && i < |order|
    ensures forall n :: n in Cut(order, i) <==> n in order && n != order[i]
  {
    var rest := Cut(order, i);
    forall n ensures n in rest <==> n in order && n != order[i] {
      if n in order && n != order[i] {
        var j :| 0 <= j < |order| && order[j] == n;
        assert if j < i then rest[j] == n else rest[j - 1] == n;
      }
    }
  }
}
