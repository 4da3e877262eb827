/** Immutable sorted runs with a Bloom filter and a sparse index: one block read per probe. */
module SsTable {
  import opened StringOrder
  import opened Wrappers

  datatype Result<+T> = Ok(value: T) | Invalid

  /** One key-value pair; no value is a tombstone. */
  datatype Entry = Entry(key: string, value: Option<string>)

  /** The newest version of each key. */
  type View = map<string, Option<string>>

  ghost predicate SortedRun(entries: seq<Entry>) {
    forall i, j :: 0 <= i < j < |entries| ==> StrLess(entries[i].key, entries[j].key)
  }

  /** Apply the entries in order; later ones win. */
  function Replay(entries: seq<Entry>): View {
    if entries == [] then map[] else
      var last := entries[|entries| - 1];
      Replay(entries[..|entries| - 1])[last.key := last.value]
  }

  lemma {:induction false} ReplayHas(entries: seq<Entry>, key: string)
    ensures key in Replay(entries) <==> exists i :: 0 <= i < |entries| && entries[i].key == key
  {
    if entries != [] {
      var n := |entries| - 1;
      ReplayHas(entries[..n], key);
      if i :| 0 <= i < n && entries[..n][i].key == key {
        assert entries[i].key == key;
      }
      if i :| 0 <= i < |entries| && entries[i].key == key {
        assert i < n ==> entries[..n][i].key == key;
      }
    }
  }

  lemma {:induction false} ReplayAt(entries: seq<Entry>, i: nat)
    requires SortedRun(entries) && i < |entries|
    ensures entries[i].key in Replay(entries) && Replay(entries)[entries[i].key] == entries[i].value
  {
    hide StrLess;
    var n := |entries| - 1;
    if i < n {
      ReplayAt(entries[..n], i);
      assert entries[..n][i] == entries[i];
      Irreflexive(entries[i].key);
      assert StrLess(entries[i].key, entries[n].key);
    }
  }

  /** In a sorted run the first entry is shadowed by nothing behind it. */
  lemma ReplayFirst(entries: seq<Entry>)
    requires SortedRun(entries) && entries != []
    ensures Replay(entries) == Replay(entries[1..])[entries[0].key := entries[0].value]
    ensures entries[0].key !in Replay(entries[1..])
    ensures SortedRun(entries[1..])
  {
    hide StrLess, Replay;
    var rest := entries[1..];
    ReplayHas(rest, entries[0].key);
    Irreflexive(entries[0].key);
    ReplayAt(entries, 0);
    forall k | k != entries[0].key
      ensures k in Replay(entries) <==> k in Replay(rest)
      ensures k in Replay(rest) ==> k in Replay(entries) && Replay(entries)[k] == Replay(rest)[k]
    {
      ReplayHas(entries, k);
      ReplayHas(rest, k);
      if i :| 0 <= i < |entries| && entries[i].key == k {
        assert rest[i - 1] == entries[i];
        ReplayAt(entries, i);
        ReplayAt(rest, i - 1);
      }
      if i :| 0 <= i < |rest| && rest[i].key == k {
        assert entries[i + 1].key == k;
      }
    }
  }

  // ---------------------------------------------------------------- Bloom filter

  const HASHES: nat := 7  // max(1, round(10 * ln 2))
  const BITS_PER_KEY: nat := 10

  function Odd(n: nat): nat {
    if n % 2 == 1 then n else n + 1
  }

  /** Double hashing: the `i`-th position of a digest. */
  function Position(digest: (nat, nat), i: nat, bitsCount: nat): nat
    requires bitsCount > 0
  {
    (digest.0 + i * Odd(digest.1)) % bitsCount
  }

  ghost function Positions(digest: (nat, nat), bitsCount: nat): set<nat>
    requires bitsCount > 0
  {
    set i | 0 <= i < HASHES :: Position(digest, i, bitsCount)
  }

  /** Set the bits of one more key. */
  method AddKey(bits: set<nat>, digest: (nat, nat), bitsCount: nat) returns (r: set<nat>)
    requires bitsCount > 0
    ensures r == bits + Positions(digest, bitsCount)
  {
    hide *;
    r := bits;
    NoPositions(digest, bitsCount);
    for i := 0 to HASHES
      invariant r == bits + FirstPositions(digest, i, bitsCount)
    {
      NextPosition(digest, i, i + 1, bitsCount);
      r := r + {Position(digest, i, bitsCount)};
    }
    AllPositions(digest, bitsCount);
  }

  ghost function FirstPositions(digest: (nat, nat), n: nat, bitsCount: nat): set<nat>
    requires bitsCount > 0
  {
    set i | 0 <= i < n :: Position(digest, i, bitsCount)
  }

  lemma NoPositions(digest: (nat, nat), bitsCount: nat)
    requires bitsCount > 0
    ensures FirstPositions(digest, 0, bitsCount) == {}
  {
  }

  lemma NextPosition(digest: (nat, nat), n: nat, next: nat, bitsCount: nat)
    requires bitsCount > 0 && next == n + 1
    ensures FirstPositions(digest, next, bitsCount) ==
            FirstPositions(digest, n, bitsCount) + {Position(digest, n, bitsCount)}
  {
    hide Position;
  }

  lemma AllPositions(digest: (nat, nat), bitsCount: nat)
    requires bitsCount > 0
    ensures FirstPositions(digest, HASHES, bitsCount) == Positions(digest, bitsCount)
  {
    hide Position;
  }

  /** Are all of the key's bits set? */
  method MightContain(bits: set<nat>, digest: (nat, nat), bitsCount: nat) returns (maybe: bool)
    requires bitsCount > 0
    ensures maybe <==> Positions(digest, bitsCount) <= bits
  {
    for i := 0 to HASHES
      invariant forall j :: 0 <= j < i ==> Position(digest, j, bitsCount) in bits
    {
      if Position(digest, i, bitsCount) !in bits {
        assert Position(digest, i, bitsCount) in Positions(digest, bitsCount);
        return false;
      }
    }
    return true;
  }

  // ---------------------------------------------------------------- tables

  /** A sorted run, the first key of each of its blocks, and the bits its Bloom filter has set. */
  datatype SSTable = SSTable(id: nat, entries: seq<Entry>, blockSize: nat, firstKeys: seq<string>, bits: set<nat>)

  function BitsCount(entries: seq<Entry>): nat {
    |entries| * BITS_PER_KEY
  }

  /** Where block `b` starts. */
  function At(b: nat, size: nat): nat {
    b * size
  }

  lemma NextAt(b: nat, size: nat)
    ensures At(b + 1, size) == At(b, size) + size && At(0, size) == 0
  {
  }

  /** `keys[::block_size]`. */
  ghost predicate IsSparseIndex(firstKeys: seq<string>, entries: seq<Entry>, blockSize: nat) {
    |entries| <= At(|firstKeys|, blockSize) && AreBlockStarts(firstKeys, entries, blockSize)
  }

  ghost predicate AreBlockStarts(firstKeys: seq<string>, entries: seq<Entry>, blockSize: nat) {
    forall b {:trigger firstKeys[b]} :: 0 <= b < |firstKeys| ==>
      At(b, blockSize) < |entries| && firstKeys[b] == entries[At(b, blockSize)].key
  }

  /** The filter has the bits of every key of the run. */
  ghost predicate Covers(bits: set<nat>, entries: seq<Entry>, digest: string -> (nat, nat)) {
    entries != [] && forall i :: 0 <= i < |entries| ==> Positions(digest(entries[i].key), BitsCount(entries)) <= bits
  }

  ghost predicate WellFormed(t: SSTable, digest: string -> (nat, nat)) {
    && t.entries != [] && t.blockSize > 0 && SortedRun(t.entries)
    && IsSparseIndex(t.firstKeys, t.entries, t.blockSize)
    && Covers(t.bits, t.entries, digest)
  }

  /** Refuses an empty run, a block size that is not positive, and keys that do not strictly increase. */
  method NewSSTable(entries: seq<Entry>, id: nat, blockSize: int, digest: string -> (nat, nat))
      returns (r: Result<SSTable>)
    ensures r.Ok? <==> entries != [] && blockSize > 0 && SortedRun(entries)
    ensures r.Ok? ==>
              r.value.id == id && r.value.entries == entries && r.value.blockSize == blockSize &&
                  WellFormed(r.value, digest)
  {
    hide StrLess, Positions, IsSparseIndex;
    if entries == [] || blockSize <= 0 {
      return Invalid;
    }
    var sorted := IsSorted(entries);
    if !sorted {
      return Invalid;
    }
    var firstKeys := SparseIndex(entries, blockSize);
    var bits := {};
    for i := 0 to |entries|
      invariant forall j :: 0 <= j < i ==> Positions(digest(entries[j].key), BitsCount(entries)) <= bits
    {
      bits := AddKey(bits, digest(entries[i].key), BitsCount(entries));
    }
    return Ok(SSTable(id, entries, blockSize, firstKeys, bits));
  }

  method IsSorted(entries: seq<Entry>) returns (sorted: bool)
    ensures sorted <==> SortedRun(entries)
  {
    hide StrLess;
    for i := 0 to |entries|
      invariant SortedRun(entries[..i])
    {
      if i > 0 && !StrLess(entries[i - 1].key, entries[i].key) {
        return false;
      }
      forall j | 0 <= j < i ensures StrLess(entries[j].key, entries[i].key) {
        if j < i - 1 {
          assert StrLess(entries[..i][j].key, entries[..i][i - 1].key);
          Transitive(entries[j].key, entries[i - 1].key, entries[i].key);
        }
      }
    }
    assert entries[..|entries|] == entries;
    return true;
  }

  method SparseIndex(entries: seq<Entry>, blockSize: nat) returns (firstKeys: seq<string>)
    requires blockSize > 0
    ensures IsSparseIndex(firstKeys, entries, blockSize)
  {
    firstKeys := [];
    var start := 0;
    assert AreBlockStarts(firstKeys, entries, blockSize);
    NextAt(0, blockSize);
    hide AreBlockStarts, At;
    while start < |entries|
      invariant start == At(|firstKeys|, blockSize) && AreBlockStarts(firstKeys, entries, blockSize)
    {
      NextBlock(firstKeys, entries, blockSize, start, firstKeys + [entries[start].key]);
      firstKeys := firstKeys + [entries[start].key];
      start := start + blockSize;
    }
  }

  lemma NextBlock(firstKeys: seq<string>, entries: seq<Entry>, blockSize: nat, start: nat, longer: seq<string>)
    requires start == At(|firstKeys|, blockSize) < |entries| && AreBlockStarts(firstKeys, entries, blockSize)
    requires longer == firstKeys + [entries[start].key]
    ensures AreBlockStarts(longer, entries, blockSize) && start + blockSize == At(|longer|, blockSize)
  {
    NextAt(|firstKeys|, blockSize);
    hide At;
    assert |longer| == |firstKeys| + 1;
    forall b | 0 <= b < |longer|
      ensures At(b, blockSize) < |entries| && longer[b] == entries[At(b, blockSize)].key {
      if b < |firstKeys| {
        assert longer[b] == firstKeys[b];
      } else {
        assert longer[b] == entries[start].key;
      }
    }
  }

  /** `bisect_right` on a sorted index. */
  method BisectRight(keys: seq<string>, key: string) returns (lo: nat)
    requires forall i, j :: 0 <= i < j < |keys| ==> StrLess(keys[i], keys[j])
    ensures lo <= |keys|
    ensures forall i :: 0 <= i < lo ==> StrLeq(keys[i], key)
    ensures forall i :: lo <= i < |keys| ==> StrLess(key, keys[i])
  {
    hide StrLess;
    IsStrictTotalOrder();
    lo := 0;
    var hi := |keys|;
    while lo < hi
      invariant lo <= hi <= |keys|
      invariant forall i :: 0 <= i < lo ==> StrLeq(keys[i], key)
      invariant forall i :: hi <= i < |keys| ==> StrLess(key, keys[i])
    {
      var mid := (lo + hi) / 2;
      if StrLess(key, keys[mid]) {
        hi := mid;
      } else {
        lo := mid + 1;
      }
    }
  }

  lemma {:induction false} Scaled(i: nat, j: nat, size: nat)
    requires i < j && size > 0
    ensures At(i, size) < At(j, size)
  {
    hide At;
    NextAt(j - 1, size);
    if i < j - 1 {
      Scaled(i, j - 1, size);
    }
  }

  lemma IndexIsSorted(t: SSTable)
    requires t.blockSize > 0 && SortedRun(t.entries) && IsSparseIndex(t.firstKeys, t.entries, t.blockSize)
    ensures forall i, j :: 0 <= i < j < |t.firstKeys| ==> StrLess(t.firstKeys[i], t.firstKeys[j])
  {
    hide StrLess, IsSparseIndex, At;
    forall i, j | 0 <= i < j < |t.firstKeys| ensures StrLess(t.firstKeys[i], t.firstKeys[j]) {
      BlockStart(t, i);
      BlockStart(t, j);
      Scaled(i, j, t.blockSize);
    }
  }

  lemma FirstBlock(t: SSTable, key: string, i: nat)
    requires t.blockSize > 0 && SortedRun(t.entries) && IsSparseIndex(t.firstKeys, t.entries, t.blockSize)
    requires i < |t.entries| && t.entries[i].key == key
    ensures t.firstKeys != [] && StrLeq(t.firstKeys[0], key)
  {
    hide StrLess, At;
    NextAt(0, t.blockSize);
    if t.firstKeys != [] {
      BlockStart(t, 0);
    }
  }

  /** One block holds the key if any does. */
  lemma OneBlock(t: SSTable, key: string, above: nat, i: nat)
    requires t.blockSize > 0 && SortedRun(t.entries) && IsSparseIndex(t.firstKeys, t.entries, t.blockSize)
    requires above <= |t.firstKeys| && i < |t.entries| && t.entries[i].key == key
    requires forall b :: 0 <= b < above ==> StrLeq(t.firstKeys[b], key)
    requires forall b :: above <= b < |t.firstKeys| ==> StrLess(key, t.firstKeys[b])
    ensures above > 0 && At(above - 1, t.blockSize) <= i < At(above - 1, t.blockSize) + t.blockSize
  {
    hide StrLess, At;
    IsStrictTotalOrder();
    var size := t.blockSize;
    if above == 0 {
      FirstBlock(t, key, i);
      assert false;
    } else {
      var b := above - 1;
      BlockStart(t, b);
      NextAt(b, size);
      if above < |t.firstKeys| {
        BlockStart(t, above);
      }
    }
  }

  /** Bisect the sparse index, then scan that block: exactly what a search of the whole run finds. */
  method Get(t: SSTable, key: string, ghost digest: string -> (nat, nat)) returns (found: Option<Entry>)
    requires WellFormed(t, digest)
    ensures found.Some? <==> key in Replay(t.entries)
    ensures found.Some? ==> found.value == Entry(key, Replay(t.entries)[key])
  {
    hide StrLess, Covers, IsSparseIndex, At;
    IndexIsSorted(t);
    var above := BisectRight(t.firstKeys, key);
    ReplayHas(t.entries, key);
    if above == 0 {
      if i :| 0 <= i < |t.entries| && t.entries[i].key == key {
        OneBlock(t, key, above, i);
        assert false;
      }
      return None;
    }
    var start := At(above - 1, t.blockSize);
    BlockStart(t, above - 1);
    var end := if start + t.blockSize <= |t.entries| then start + t.blockSize else |t.entries|;
    for i := start to end
      invariant forall j :: start <= j < i ==> t.entries[j].key != key
    {
      if t.entries[i].key == key {
        ReplayAt(t.entries, i);
        return Some(t.entries[i]);
      }
    }
    if i :| 0 <= i < |t.entries| && t.entries[i].key == key {
      OneBlock(t, key, above, i);
      assert false;
    }
    return None;
  }

  lemma BlockStart(t: SSTable, b: nat)
    requires IsSparseIndex(t.firstKeys, t.entries, t.blockSize) && b < |t.firstKeys|
    ensures At(b, t.blockSize) < |t.entries| && t.firstKeys[b] == t.entries[At(b, t.blockSize)].key
  {
    hide At;
    var first := t.firstKeys[b];
  }

  /** A filter never hides a key its table holds. */
  lemma NoFalseNegatives(t: SSTable, key: string, digest: string -> (nat, nat))
    requires WellFormed(t, digest) && key in Replay(t.entries)
    ensures Positions(digest(key), BitsCount(t.entries)) <= t.bits
  {
    hide StrLess, SortedRun, IsSparseIndex, Positions;
    ReplayHas(t.entries, key);
  }
}
