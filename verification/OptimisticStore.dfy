/** Compare-and-set on a version number, under any interleaving of readers and writers. */
module OptimisticStore {
  import opened Wrappers

  type Thread = nat

  datatype Versioned<+T> = Versioned(value: T, version: nat)

  datatype Result<+T> = Ok(value: T) | NotFound | Conflict

  datatype Snapshot<+T> = Snapshot(key: string, seen: Versioned<T>)

  /** The store, and what each thread in the middle of an `update` has read. */
  datatype State<T> = State(entries: map<string, Versioned<T>>, snaps: map<Thread, Snapshot<T>>)

  /** `Cas` computes a new value from the thread's snapshot and tries to install it. */
  datatype Event<!T> = Put(key: string, value: T) | Read(t: Thread, key: string) | Cas(t: Thread, change: T -> T)

  predicate Enabled<T>(s: State<T>, e: Event<T>) {
    match e
    case Put(_, _) => true
    case Read(_, key) => key in s.entries
    case Cas(t, _) => t in s.snaps && s.snaps[t].key in s.entries
  }

  predicate Succeeds<T>(s: State<T>, e: Event<T>)
    requires Enabled(s, e)
  {
    e.Cas? && s.entries[s.snaps[e.t].key].version == s.snaps[e.t].seen.version
  }

  function Apply<T>(s: State<T>, e: Event<T>): State<T>
    requires Enabled(s, e)
  {
    match e
    case Put(key, value) => s.(entries := s.entries[key := Versioned(value, 1)])
    case Read(t, key) => s.(snaps := s.snaps[t := Snapshot(key, s.entries[key])])
    case Cas(t, change) =>
      var snap := s.snaps[t];
      var rest := s.(snaps := s.snaps - {t});
      if Succeeds(s, e) then rest.(entries :=
                                   s.entries[snap.key := Versioned(change(snap.seen.value), snap.seen.version + 1)])
                                       else rest
  }

  /** A snapshot of the present version is a snapshot of the present value, and none is from the future. */
  ghost predicate Honest<T>(s: State<T>, key: string) {
    forall t :: t in s.snaps && s.snaps[t].key == key ==>
      && key in s.entries && s.snaps[t].seen.version <= s.entries[key].version
      && (s.snaps[t].seen.version == s.entries[key].version ==> s.snaps[t].seen.value == s.entries[key].value)
  }

  /** A `put` that no snapshot can be mistaken for: it starts again from version 1. */
  ghost predicate Harmless<T>(s: State<T>, key: string, value: T) {
    forall t :: t in s.snaps && s.snaps[t].key == key ==>
      s.snaps[t].seen.version <= 1 && (s.snaps[t].seen.version == 1 ==> s.snaps[t].seen.value == value)
  }

  /** Every step keeps snapshots honest, except exactly a `put` that some snapshot can be mistaken for. */
  lemma HonestStep<T>(s: State<T>, e: Event<T>, key: string)
    requires Honest(s, key) && Enabled(s, e)
    ensures Honest(Apply(s, e), key) <==> (e.Put? && e.key == key ==> Harmless(s, key, e.value))
  {
    var s' := Apply(s, e);
    if e.Put? && e.key == key {
      assert forall t :: t in s'.snaps <==> t in s.snaps;
    } else if e.Cas? {
      assert forall t :: t in s'.snaps ==> t in s.snaps && s'.snaps[t] == s.snaps[t];
    }
  }

  // ---------------------------------------------------------------- whole runs

  ghost predicate Legal<T>(s: State<T>, run: seq<Event<T>>)
    decreases |run|
  {
    run == [] || (Enabled(s, run[0]) && Legal(Apply(s, run[0]), run[1..]))
  }

  ghost function After<T>(s: State<T>, run: seq<Event<T>>): State<T>
    requires Legal(s, run)
    decreases |run|
  {
    if run == [] then s else After(Apply(s, run[0]), run[1..])
  }

  /** Every `put` on the key is harmless when it happens. */
  ghost predicate HarmlessPuts<T>(s: State<T>, run: seq<Event<T>>, key: string)
    requires Legal(s, run)
    decreases |run|
  {
    run == [] ||
    ((run[0].Put? && run[0].key == key ==> Harmless(s, key, run[0].value)) &&
     HarmlessPuts(Apply(s, run[0]), run[1..], key))
  }

  /** What a run did to one key: values put, and changes that went through. */
  datatype Write<!T> = Set(value: T) | Change(change: T -> T)

  ghost function Wrote<T>(s: State<T>, e: Event<T>, key: string): seq<Write<T>>
    requires Enabled(s, e)
  {
    if e.Put? && e.key == key then [Set(e.value)]
    else if e.Cas? && Succeeds(s, e) && s.snaps[e.t].key == key then [Change(e.change)]
    else []
  }

  ghost function Writes<T>(s: State<T>, run: seq<Event<T>>, key: string): seq<Write<T>>
    requires Legal(s, run)
    decreases |run|
  {
    if run == [] then [] else Wrote(s, run[0], key) + Writes(Apply(s, run[0]), run[1..], key)
  }

  ghost function Written<T>(entry: Option<Versioned<T>>, write: Write<T>): Option<Versioned<T>> {
    match write
    case Set(value) => Some(Versioned(value, 1))
    case Change(change) => if entry.None? then None
         else Some(Versioned(change(entry.value.value), entry.value.version + 1))
  }

  /** The writes one after the other, each on the value the last one left. */
  ghost function Folded<T>(entry: Option<Versioned<T>>, writes: seq<Write<T>>): Option<Versioned<T>>
    decreases |writes|
  {
    if writes == [] then entry else Folded(Written(entry, writes[0]), writes[1..])
  }

  ghost function Entry<T>(s: State<T>, key: string): Option<Versioned<T>> {
    if key in s.entries then Some(s.entries[key]) else None
  }

  /** Every write on the key worked on what the write before it left. */
  ghost predicate NothingLost<T>(s: State<T>, run: seq<Event<T>>, key: string)
    requires Legal(s, run)
  {
    Entry(After(s, run), key) == Folded(Entry(s, key), Writes(s, run, key))
  }

  lemma StepWrites<T>(s: State<T>, e: Event<T>, key: string)
    requires Honest(s, key) && Enabled(s, e)
    ensures Entry(Apply(s, e), key) == Folded(Entry(s, key), Wrote(s, e, key))
  {
    var w := Wrote(s, e, key);
    if w != [] {
      assert Folded(Entry(s, key), w) == Folded(Written(Entry(s, key), w[0]), w[1..]);
      assert w[1..] == [];
    }
  }

  lemma {:induction false} FoldedConcat<T>(entry: Option<Versioned<T>>, a: seq<Write<T>>, b: seq<Write<T>>)
    ensures Folded(entry, a + b) == Folded(Folded(entry, a), b)
    decreases |a|
  {
    if a == [] {
      assert a + b == b;
    } else {
      assert (a + b)[1..] == a[1..] + b;
      FoldedConcat(Written(entry, a[0]), a[1..], b);
    }
  }

  /** No update is lost while every put over the key is harmless; and snapshots stay honest. */
  lemma {:induction false} NoLostUpdate<T>(s: State<T>, run: seq<Event<T>>, key: string)
    requires Honest(s, key) && Legal(s, run) && HarmlessPuts(s, run, key)
    ensures NothingLost(s, run, key) && Honest(After(s, run), key)
    decreases |run|
  {
    if run != [] {
      var e := run[0];
      HonestStep(s, e, key);
      NoLostUpdate(Apply(s, e), run[1..], key);
      StepWrites(s, e, key);
      FoldedConcat(Entry(s, key), Wrote(s, e, key), Writes(Apply(s, e), run[1..], key));
    }
  }

  // ---------------------------------------------------------------- which puts are harmless

  ghost predicate Stale<T>(s: State<T>, key: string, t: Thread) {
    t in s.snaps && s.snaps[t].key == key && key in s.entries
  }

  lemma OneMore<T>(s: State<T>, e: Event<T>, rest: seq<Event<T>>, key: string)
    requires Enabled(s, e) && Legal(Apply(s, e), rest) &&
             Entry(Apply(s, e), key) == Folded(Entry(s, key), Wrote(s, e, key))
    requires (e.Put? ==> e.key != key) && HarmlessPuts(Apply(s, e), rest, key)
    ensures Legal(s, [e] + rest) && HarmlessPuts(s, [e] + rest, key)
    ensures NothingLost(s, [e] + rest, key) <==> NothingLost(Apply(s, e), rest, key)
  {
    var run := [e] + rest;
    assert run[0] == e && run[1..] == rest;
    FoldedConcat(Entry(s, key), Wrote(s, e, key), Writes(Apply(s, e), rest, key));
  }

  lemma NoPutsHarmless<T>(s: State<T>, e: Event<T>, key: string)
    requires Enabled(s, e) && (e.Put? ==> e.key != key)
    ensures Legal(s, [e]) && HarmlessPuts(s, [e], key)
    ensures NothingLost(s, [e], key) <==> Entry(Apply(s, e), key) == Folded(Entry(s, key), Wrote(s, e, key))
  {
    var run := [e];
    assert run[1..] == [];
    assert Writes(s, run, key) == Wrote(s, e, key) + [];
    assert After(s, run) == After(Apply(s, e), []);
  }

  /** A snapshot whose version the entry has yet to reach again, or has with another value:
      another thread's updates bring it there, the stale compare-and-set goes through, and what
      was written in between is lost. */
  lemma {:induction false} StaleGoesThrough<T>(s: State<T>, key: string, t: Thread, other: T, n: nat)
      returns (run: seq<Event<T>>)
    requires Stale(s, key, t) && s.entries[key].version + n == s.snaps[t].seen.version
    requires other != s.snaps[t].seen.value && (n == 0 ==> s.entries[key].value != s.snaps[t].seen.value)
    ensures Legal(s, run) && HarmlessPuts(s, run, key) && !NothingLost(s, run, key)
    decreases n
  {
    if n == 0 {
      var same: T -> T := x => x;
      var e := Event.Cas(t, same);
      run := [e];
      NoPutsHarmless(s, e, key);
      assert Wrote(s, e, key) == [Change(same)];
      assert Folded(Entry(s, key), [Change(same)]) == Folded(Written(Entry(s, key), Change(same)), []);
    } else {
      var u := t + 1;
      var constant: T -> T := x => other;
      var read, cas := Event.Read(u, key), Event.Cas(u, constant);
      var s1 := Apply(s, read);
      var s2 := Apply(s1, cas);
      assert Stale(s2, key, t) && s2.entries[key] == Versioned(other, s.entries[key].version + 1);
      var rest := StaleGoesThrough(s2, key, t, other, n - 1);
      assert Entry(s2, key) == Folded(Entry(s1, key), Wrote(s1, cas, key)) by {
        assert Wrote(s1, cas, key) == [Change(constant)];
        assert Folded(Entry(s1, key), [Change(constant)]) == Folded(Written(Entry(s1, key), Change(constant)), []);
      }
      OneMore(s1, cas, rest, key);
      OneMore(s, read, [cas] + rest, key);
      run := [read] + ([cas] + rest);
    }
  }

  /** A put is harmless exactly when, whatever runs follow in which every later put is harmless,
      nothing written after it is lost. The two values only say that there is something to lose. */
  lemma PutIsHarmlessIff<T(!new)>(s: State<T>, key: string, value: T, a: T, b: T)
    requires Honest(s, key) && a != b
    ensures var s' := Apply(s, Event<T>.Put(key, value));
            Harmless(s, key, value) <==>
              forall run: seq<Event<T>> :: Legal(s', run) && HarmlessPuts(s', run, key) ==> NothingLost(s', run, key)
  {
    var put := Event<T>.Put(key, value);
    var s' := Apply(s, put);
    if Harmless(s, key, value) {
      HonestStep(s, put, key);
      forall run: seq<Event<T>> | Legal(s', run) && HarmlessPuts(s', run, key) ensures NothingLost(s', run, key) {
        NoLostUpdate(s', run, key);
      }
    } else {
      var t :| t in s.snaps && s.snaps[t].key == key
               && !(s.snaps[t].seen.version <= 1 && (s.snaps[t].seen.version == 1 ==> s.snaps[t].seen.value == value));
      assert Stale(s', key, t);
      var run := StaleGoesThrough(s', key, t, if a != s.snaps[t].seen.value then a else b, s.snaps[t].seen.version - 1);
    }
  }

  /** A `put` in between defeats the version check: the update installs a change of the old value
      and the value that was put is lost. */
  lemma PutCanBeLost<T>(key: string, old1: T, put: T, change: T -> T)
    ensures var s := State(map[key := Versioned(old1, 1)], map[]);
            var run := [Read(0, key), Put(key, put), Cas(0, change)];
            Legal(s, run) && key in After(s, run).entries && After(s, run).entries[key] == Versioned(change(old1), 2)
  {
    var s: State<T> := State(map[key := Versioned(old1, 1)], map[]);
    var run: seq<Event<T>> := [Read(0, key), Put(key, put), Cas(0, change)];
    var s1 := Apply(s, run[0]);
    var s2 := Apply(s1, run[1]);
    var s3 := Apply(s2, run[2]);
    assert run[1..] == [Put(key, put), Cas(0, change)] && run[1..][1..] == [Cas(0, change)] && run[1..][1..][1..] == [];
    assert Legal(s3, []) && After(s3, []) == s3;
    assert Legal(s2, run[1..][1..]) && After(s2, run[1..][1..]) == s3;
    assert Legal(s1, run[1..]) && After(s1, run[1..]) == s3;
  }

  /** Other threads' steps keep a snapshot of the present entry honest, as long as their puts are harmless. */
  lemma OthersKeepHonest<T>(s: State<T>, t: Thread, key: string, run: seq<Event<T>>)
    requires key in s.entries && Honest(s, key)
    requires var s1 := Apply(s, Event<T>.Read(t, key)); Legal(s1, run) && HarmlessPuts(s1, run, key)
    requires forall e :: e in run ==> !(e.Read? && e.t == t) && !(e.Cas? && e.t == t)
    ensures HonestEntry(After(Apply(s, Event<T>.Read(t, key)), run).entries, key, s.entries[key])
  {
    var s1 := Apply(s, Event<T>.Read(t, key));
    HonestStep(s, Event<T>.Read(t, key), key);
    NoLostUpdate(s1, run, key);
    SnapshotStays(s1, t, run);
  }

  lemma {:induction false} SnapshotStays<T>(s: State<T>, t: Thread, run: seq<Event<T>>)
    requires t in s.snaps && Legal(s, run) && forall e :: e in run ==> !(e.Read? && e.t == t) && !(e.Cas? && e.t == t)
    ensures t in After(s, run).snaps && After(s, run).snaps[t] == s.snaps[t]
    decreases |run|
  {
    if run != [] {
      assert run[0] in run;
      assert forall e :: e in run[1..] ==> e in run;
      SnapshotStays(Apply(s, run[0]), t, run[1..]);
    }
  }

  // ---------------------------------------------------------------- the class

  type Entries<T> = map<string, Versioned<T>>

  /** One compare-and-set of an `update`: the entries right before and right after it. */
  datatype Move<T> = Move(before: Entries<T>, after: Entries<T>)

  ghost predicate HonestEntry<T>(m: Entries<T>, key: string, seen: Versioned<T>) {
    key in m && seen.version <= m[key].version && (seen.version == m[key].version ==> seen.value == m[key].value)
  }

  class Store<T(!new)> {
    var entries: map<string, Versioned<T>>

    constructor ()
      ensures entries == map[]
    {
      entries := map[];
    }

    method Put(key: string, value: T) returns (entry: Versioned<T>)
      modifies this
      ensures entry == Versioned(value, 1) && entries == old(entries)[key := entry]
    {
      entry := Versioned(value, 1);
      entries := entries[key := entry];
    }

    method Read(key: string) returns (r: Result<Versioned<T>>)
      ensures r == if key in entries then Ok(entries[key]) else NotFound
    {
      if key !in entries {
        return NotFound;
      }
      return Ok(entries[key]);
    }

    /** Installs exactly what the `Cas` step of a run installs. */
    method CompareAndSet(key: string, expectedVersion: nat, value: T) returns (r: Result<Versioned<T>>)
      modifies this
      ensures key !in old(entries) ==> r.NotFound? && entries == old(entries)
      ensures key in old(entries) && old(entries)[key].version != expectedVersion ==>
                r.Conflict? && entries == old(entries)
      ensures key in old(entries) && old(entries)[key].version == expectedVersion ==>
                && r == Ok(Versioned(value, expectedVersion + 1)) && entries == old(entries)[key := r.value]
                && forall t: Thread, change: T -> T, seen: Versioned<T> ::
                     change(seen.value) == value && seen.version == expectedVersion ==>
                     entries == Apply(State(old(entries), map[t := Snapshot(key, seen)]), Event.Cas(t, change)).entries
    {
      var current := Read(key);
      if current.NotFound? {
        return NotFound;
      }
      if current.value.version != expectedVersion {
        return Conflict;
      }
      var updated := Versioned(value, current.value.version + 1);
      entries := entries[key := updated];
      return Ok(updated);
    }

    /** Read, compute outside the lock, write only if nothing moved underneath, a bounded number of
        times. `others` is whatever other threads do to the entries before each read and before
        each write: any behaviour at all that keeps a snapshot of the key honest. */
    method Update(key: string, change: T -> T, attempts: int, others: (nat, Entries<T>) -> Entries<T>)
        returns (r: Result<Versioned<T>>, ghost own: seq<Move<T>>)
      requires forall i, m, seen :: HonestEntry(m, key, seen) ==> HonestEntry(others(i, m), key, seen)
      modifies this
      ensures forall i :: 0 <= i < |own| - 1 ==> own[i].after == own[i].before
      ensures r.Ok? ==>
                |own| > 0 &&
                var last := own[|own| - 1];
                && entries == last.after && key in last.before
                && r.value == Versioned(change(last.before[key].value), last.before[key].version + 1)
                && last.after == last.before[key := r.value]
      ensures !r.Ok? ==> forall i :: 0 <= i < |own| ==> own[i].after == own[i].before
      ensures |own| <= attempts || own == []
      ensures r.Conflict? ==> (attempts <= 0 && own == []) || |own| == attempts
    {
      own := [];
      for i := 0 to if attempts > 0 then attempts else 0
        invariant |own| == i && forall k :: 0 <= k < i ==> own[k].after == own[k].before
      {
        entries := others(2 * i, entries);
        var current := Read(key);
        if current.NotFound? {
          return NotFound, own;
        }
        ghost var seen := current.value;
        assert HonestEntry(entries, key, seen);
        ghost var read := entries;
        entries := others(2 * i + 1, entries);
        assert HonestEntry(others(2 * i + 1, read), key, seen);
        ghost var before := entries;
        r := CompareAndSet(key, current.value.version, change(current.value.value));
        own := own + [Move(before, entries)];
        if r.Ok? {
          return;
        }
      }
      return Conflict, own;
    }

    /** With the lock held throughout, nothing moves underneath and the change always goes in. */
    method UpdatePessimistically(key: string, change: T -> T) returns (r: Result<Versioned<T>>)
      modifies this
      ensures key !in old(entries) ==> r.NotFound? && entries == old(entries)
      ensures key in old(entries) ==>
                && r == Ok(Versioned(change(old(entries)[key].value), old(entries)[key].version + 1))
                && entries == old(entries)[key := r.value]
    {
      var current := Read(key);
      if current.NotFound? {
        return NotFound;
      }
      r := CompareAndSet(key, current.value.version, change(current.value.value));
    }
  }
}
