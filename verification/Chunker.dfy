/** Content-defined chunking: a rolling hash over the last bytes decides where to cut. */
module Chunker {
  import opened Powers

  datatype Result<+T> = Ok(value: T) | Invalid | NotFound

  const BASE: int := 257

  /** 2^61 - 1. */
  function Mod(): (m: int)
    ensures m > 0x1_0000_0000
  {
    0x1FFF_FFFF_FFFF_FFFF
  }

  type Bytes = seq<int>

  function Pow(b: int, e: nat): int {
    if e == 0 then 1 else b * Pow(b, e - 1)
  }

  /** The polynomial a window stands for, newest byte last. */
  function Poly(s: Bytes): int {
    if s == [] then 0 else Poly(s[..|s| - 1]) * BASE + s[|s| - 1]
  }

  /** The hash of a window. */
  function HashOf(s: Bytes): int {
    Poly(s) % Mod()
  }

  // ---------------------------------------------------------------- modular arithmetic

  lemma {:induction false} ModShift(x: int, k: int, m: int)
    requires m > 0
    ensures (x + k * m) % m == x % m
    decreases if k >= 0 then k else -k
  {
    if k > 0 {
      ModShift(x, k - 1, m);
      assert x + k * m == (x + (k - 1) * m) + m;
      AddOnce(x + (k - 1) * m, m);
    } else if k < 0 {
      ModShift(x, k + 1, m);
      assert x + (k + 1) * m == (x + k * m) + m;
      AddOnce(x + k * m, m);
    }
  }

  lemma AddOnce(x: int, m: int)
    requires m > 0
    ensures (x + m) % m == x % m
  {
    var q, r := x / m, x % m;
    assert x + m == (q + 1) * m + r;
    SameQuotient(x + m, m, q + 1, r);
  }

  lemma SameQuotient(x: int, m: int, q: int, r: int)
    requires m > 0 && x == q * m + r && 0 <= r < m
    ensures x % m == r
  {
    var d := x / m - q;
    assert x == (x / m) * m + x % m;
    assert d * m == r - x % m;
    MultipleBound(d, m);
  }

  lemma MultipleBound(d: int, m: int)
    requires m > 0
    ensures (d > 0 ==> d * m >= m) && (d < 0 ==> d * m <= -m)
  {
  }

  /** Reducing early changes nothing modulo `m`. */
  lemma ModLinear(a: int, b: int, c: int, m: int)
    requires m > 0
    ensures ((a % m) * b + c) % m == (a * b + c) % m
  {
    var q := a / m;
    assert a == q * m + a % m;
    assert a * b + c == ((a % m) * b + c) + (q * b) * m by {
      assert a * b == (q * m) * b + (a % m) * b;
      assert (q * m) * b == (q * b) * m;
    }
    ModShift((a % m) * b + c, q * b, m);
  }

  lemma ModSubtract(a: int, x: int, p: int, m: int)
    requires m > 0
    ensures (a % m - x * (p % m)) % m == (a - x * p) % m
  {
    var q, r := p / m, p % m;
    var y := x * r;
    ModLinear(a, 1, -y, m);
    ModShift(a - y, -(x * q), m);
    Split(x, p, q, r, m);
  }

  lemma Split(x: int, p: int, q: int, r: int, m: int)
    requires p == q * m + r
    ensures x * p == x * r + (x * q) * m && -(x * q) * m == -((x * q) * m)
  {
    assert x * (q * m) == (x * q) * m;
  }

  /** Dropping the oldest byte takes its power away. */
  lemma {:induction false} PolyDrop(s: Bytes)
    requires s != []
    ensures Poly(s) - s[0] * Pow(BASE, |s| - 1) == Poly(s[1..])
  {
    var n := |s| - 1;
    if n > 0 {
      PolyDrop(s[..n]);
      assert s[..n][1..] == s[1..][..n - 1];
      assert Poly(s[1..]) == Poly(s[1..][..n - 1]) * BASE + s[n];
      PolyStep(Poly(s[..n]), s[0], Pow(BASE, n - 1), Poly(s[..n][1..]), s[n]);
    } else {
      assert s[..0] == [] && s[1..] == [];
    }
  }

  lemma PolyStep(whole: int, first: int, p: int, rest: int, last: int)
    requires whole - first * p == rest
    ensures whole * BASE + last - first * (BASE * p) == rest * BASE + last
  {
    assert first * (BASE * p) == (first * p) * BASE;
  }

  // ---------------------------------------------------------------- the rolling hash

  /** The last `n` bytes, or all of them. */
  function Last(s: Bytes, n: nat): Bytes {
    if |s| <= n then s else s[|s| - n..]
  }

  function Without(value: int, leaving: int, power: int): int {
    (value - leaving * power) % Mod()
  }

  function With(value: int, byte: int): int {
    (value * BASE + byte) % Mod()
  }

  lemma DropOldest(s: Bytes)
    requires s != []
    ensures Without(HashOf(s), s[0], Pow(BASE, |s| - 1) % Mod()) == HashOf(s[1..])
  {
    hide Poly, Pow, Mod;
    PolyDrop(s);
    ModSubtract(Poly(s), s[0], Pow(BASE, |s| - 1), Mod());
  }

  lemma TakeNewest(s: Bytes, byte: int)
    ensures With(HashOf(s), byte) == HashOf(s + [byte])
  {
    assert (s + [byte])[..|s|] == s;
    ModLinear(Poly(s), BASE, byte, Mod());
  }

  class RollingHash {
    const window: nat
    const power: int
    var buffer: Bytes
    var value: int

    ghost predicate Valid()
      reads this
    {
      window > 0 && |buffer| <= window && power == Pow(BASE, window - 1) % Mod() && value == HashOf(buffer)
    }

    constructor (window: nat)
      requires window > 0
      ensures Valid() && buffer == [] && this.window == window
    {
      this.window, power, buffer, value := window, Pow(BASE, window - 1) % Mod(), [], 0;
    }

    /** One multiply-add: the value stays the polynomial of the bytes in the window. */
    method Push(byte: int) returns (v: int)
      requires Valid()
      modifies this
      ensures Valid() && buffer == Last(old(buffer) + [byte], window)
      ensures v == value == HashOf(buffer)
    {
      hide Without, With, Poly, Pow;
      if |buffer| == window {
        var leaving := buffer[0];
        DropOldest(buffer);
        buffer := buffer[1..];
        value := Without(value, leaving, power);
      }
      TakeNewest(buffer, byte);
      buffer := buffer + [byte];
      value := With(value, byte);
      return value;
    }
  }

  // ---------------------------------------------------------------- where to cut

  datatype Params = Params(min: int, avg: int, max: int, window: int)

  datatype Chunk = Chunk(hash: string, offset: nat, length: nat)

  predicate ValidParams(p: Params) {
    IsPowerOfTwo(p.avg) && 0 < p.min <= p.avg <= p.max && p.window > 0
  }

  /** The hash of the window that ends before `end`. */
  function HashAt(p: Params, data: Bytes, end: nat): int
    requires end <= |data| && p.window > 0
  {
    HashOf(Last(data[..end], p.window))
  }

  /** A chunk that started at `start` may end before `end`: `value & (avg - 1) == 0`, or too long. */
  predicate CutsAt(p: Params, data: Bytes, start: nat, end: nat)
    requires start < end <= |data| && ValidParams(p)
  {
    end - start >= p.min && (HashAt(p, data, end) % p.avg == 0 || end - start >= p.max)
  }

  /** The first place at or after `from` where the chunk ends; the end of the data at the latest. */
  function NextCut(p: Params, data: Bytes, start: nat, from: nat): (end: nat)
    requires start < from <= |data| && ValidParams(p)
    ensures from <= end <= |data|
    decreases |data| - from
  {
    if from == |data| || CutsAt(p, data, start, from) then from else NextCut(p, data, start, from + 1)
  }

  /** All the chunks from a cut point on. */
  function Chunks(p: Params, digest: Bytes -> string, data: Bytes, start: nat): seq<Chunk>
    requires start <= |data| && ValidParams(p)
    decreases |data| - start
  {
    if start == |data| then [] else Resume(p, digest, data, start, start + 1)
  }

  /** The same with the present chunk scanned up to `from`. */
  function Resume(p: Params, digest: Bytes -> string, data: Bytes, start: nat, from: nat): seq<Chunk>
    requires start < from <= |data| && ValidParams(p)
    decreases |data| - start, 0
  {
    var end := NextCut(p, data, start, from);
    [Chunk(digest(data[start..end]), start, end - start)] + Chunks(p, digest, data, end)
  }

  /** One pass over the data with one rolling hash. */
  method ContentDefinedChunks(data: Bytes, p: Params, digest: Bytes -> string) returns (r: Result<seq<Chunk>>)
    ensures r.Ok? || r.Invalid?
    ensures r.Ok? <==> ValidParams(p)
    ensures r.Ok? ==> r.value == Chunks(p, digest, data, 0)
  {
    if !IsPowerOfTwo(p.avg) || !(0 < p.min <= p.avg <= p.max) || p.window <= 0 {
      return Invalid;
    }
    hide *;
    var hasher := new RollingHash(p.window);
    var chunks: seq<Chunk> := [];
    var start := 0;
    ScanStart(p, digest, data);
    for index := 0 to |data|
      invariant fresh(hasher) && hasher.Valid() && hasher.window == p.window &&
                hasher.buffer == Last(data[..index], p.window)
      invariant ValidParams(p) && start <= index && Scanning(p, digest, data, start, index, chunks)
    {
      var value := hasher.Push(data[index]);
      LastStep(data, index, p.window);
      ScanStep(p, digest, data, start, index, chunks, value);
      if Ends(p, index - start + 1, value) {
        chunks := chunks + [ChunkOf(digest, data, start, index + 1)];
        start := index + 1;
      }
    }
    ScanEnd(p, digest, data, start, chunks);
    if start < |data| {
      chunks := chunks + [ChunkOf(digest, data, start, |data|)];
    }
    return Ok(chunks);
  }

  function ChunkOf(digest: Bytes -> string, data: Bytes, start: nat, end: nat): Chunk
    requires start <= end <= |data|
  {
    Chunk(digest(data[start..end]), start, end - start)
  }

  /** The loop invariant: the chunks so far and what is still to come make up the answer. */
  ghost predicate Scanning(p: Params, digest: Bytes -> string, data: Bytes, start: nat, index: nat, chunks: seq<Chunk>)
    requires start <= index <= |data| && ValidParams(p)
  {
    chunks + Rest(p, digest, data, start, index) == Chunks(p, digest, data, 0)
  }

  lemma ScanStart(p: Params, digest: Bytes -> string, data: Bytes)
    requires IsPowerOfTwo(p.avg) && 0 < p.min <= p.avg <= p.max && p.window > 0
    ensures ValidParams(p) && Scanning(p, digest, data, 0, 0, []) && Last(data[..0], p.window) == []
  {
    RestStart(p, digest, data);
  }

  lemma ScanStep(p: Params, digest: Bytes -> string, data: Bytes, start: nat, index: nat, chunks: seq<Chunk>,
                 value: int)
    requires ValidParams(p) && start <= index < |data| && Scanning(p, digest, data, start, index, chunks)
    requires value == HashOf(Last(data[..index + 1], p.window))
    ensures if Ends(p, index - start + 1, value)
            then Scanning(p, digest, data, index + 1, index + 1, chunks + [ChunkOf(digest, data, start, index + 1)])
            else Scanning(p, digest, data, start, index + 1, chunks)
  {
    hide Rest, Chunks, Ends, ValidParams, HashOf, Last;
    RestStep(p, digest, data, start, index, value);
    if Ends(p, index - start + 1, value) {
      MoveOne(chunks, ChunkOf(digest, data, start, index + 1), Rest(p, digest, data, index + 1, index + 1));
    }
  }

  lemma ScanEnd(p: Params, digest: Bytes -> string, data: Bytes, start: nat, chunks: seq<Chunk>)
    requires ValidParams(p) && start <= |data| && Scanning(p, digest, data, start, |data|, chunks)
    ensures Chunks(p, digest, data, 0) ==
            if start < |data| then chunks + [ChunkOf(digest, data, start, |data|)] else chunks
  {
    hide Chunks, ValidParams;
    RestEnd(p, digest, data, start);
    assert data[start..|data|] == data[start..] && chunks + [] == chunks;
  }

  /** What is still to come when the bytes before `index` have been looked at. */
  function Rest(p: Params, digest: Bytes -> string, data: Bytes, start: nat, index: nat): seq<Chunk>
    requires start <= index <= |data| && ValidParams(p)
  {
    if start == |data| then [] else if index == |data| then [Chunk(digest(data[start..]), start, |data| - start)]
    else Resume(p, digest, data, start, index + 1)
  }

  /** The test for a chunk's last byte. */
  predicate Ends(p: Params, length: int, value: int)
    requires ValidParams(p)
  {
    length >= p.min && (value % p.avg == 0 || length >= p.max)
  }

  lemma MoveOne(done: seq<Chunk>, x: Chunk, rest: seq<Chunk>)
    ensures done + ([x] + rest) == (done + [x]) + rest
  {
  }

  lemma RestStart(p: Params, digest: Bytes -> string, data: Bytes)
    requires IsPowerOfTwo(p.avg) && 0 < p.min <= p.avg <= p.max && p.window > 0
    ensures ValidParams(p) && [] + Rest(p, digest, data, 0, 0) == Chunks(p, digest, data, 0)
    ensures Last(data[..0], p.window) == []
  {
  }

  lemma RestEnd(p: Params, digest: Bytes -> string, data: Bytes, start: nat)
    requires start <= |data| && ValidParams(p)
    ensures Rest(p, digest, data, start, |data|) ==
            if start < |data| then [Chunk(digest(data[start..]), start, |data| - start)] else []
  {
  }

  lemma LastStep(data: Bytes, index: nat, window: nat)
    requires index < |data| && window > 0
    ensures Last(Last(data[..index], window) + [data[index]], window) == Last(data[..index + 1], window)
  {
  }

  /** One byte: the chunk ends here, or goes on. */
  lemma RestStep(p: Params, digest: Bytes -> string, data: Bytes, start: nat, index: nat, value: int)
    requires start <= index < |data| && ValidParams(p) && value == HashOf(Last(data[..index + 1], p.window))
    ensures Rest(p, digest, data, start, index) ==
            if Ends(p, index - start + 1, value) then
              [Chunk(digest(data[start..index + 1]), start, index - start + 1)] +
                  Rest(p, digest, data, index + 1, index + 1)
            else
              Rest(p, digest, data, start, index + 1)
  {
    hide Poly, IsPowerOfTwo, Last;
    var end := index + 1;
    assert CutsAt(p, data, start, end) <==>
             index - start + 1 >= p.min && (value % p.avg == 0 || index - start + 1 >= p.max);
    assert Rest(p, digest, data, start, index) == Resume(p, digest, data, start, end);
    var chunk := Chunk(digest(data[start..end]), start, end - start);
    if CutsAt(p, data, start, end) || end == |data| {
      assert Resume(p, digest, data, start, end) == [chunk] + Chunks(p, digest, data, end);
      assert Chunks(p, digest, data, end) == Rest(p, digest, data, end, end);
      if end == |data| {
        assert data[start..end] == data[start..] && [chunk] + [] == [chunk];
      }
    } else {
      assert NextCut(p, data, start, end) == NextCut(p, data, start, end + 1);
      assert Resume(p, digest, data, start, end) == Resume(p, digest, data, start, end + 1);
    }
  }

  // ---------------------------------------------------------------- tiling

  /** The chunks lie end to end and cover the data. */
  ghost predicate Tiles(chunks: seq<Chunk>, from: nat, to: nat) {
    if chunks == [] then from == to else
      chunks[0].offset == from && chunks[0].length > 0 && Tiles(chunks[1..], from + chunks[0].length, to)
  }

  /** Chunks tile the data; all are within the size bounds, except that the last may be short. */
  lemma {:induction false} ChunksTile(p: Params, digest: Bytes -> string, data: Bytes, start: nat)
    requires start <= |data| && ValidParams(p)
    ensures var c := Chunks(p, digest, data, start);
            && Tiles(c, start, |data|)
            && (forall i :: 0 <= i < |c| ==> c[i].length <= p.max && c[i].offset + c[i].length <= |data|
                                             && c[i].hash == digest(data[c[i].offset..c[i].offset + c[i].length]))
            && (forall i :: 0 <= i < |c| - 1 ==> c[i].length >= p.min)
    decreases |data| - start
  {
    hide *;
    if start < |data| {
      AtLeastOne(p);
      var end := NextCut(p, data, start, start + 1);
      CutBounds(p, data, start, start + 1);
      ChunksCons(p, digest, data, start, end);
      ChunksTile(p, digest, data, end);
      TileCons(p, digest, data, start, end, Chunks(p, digest, data, end));
    } else {
      NoChunks(p, digest, data);
    }
  }

  lemma AtLeastOne(p: Params)
    requires ValidParams(p)
    ensures 1 <= p.max
  {
  }

  lemma NoChunks(p: Params, digest: Bytes -> string, data: Bytes)
    requires ValidParams(p)
    ensures Chunks(p, digest, data, |data|) == [] && Tiles([], |data|, |data|)
  {
  }

  lemma TileCons(p: Params, digest: Bytes -> string, data: Bytes, start: nat, end: nat, rest: seq<Chunk>)
    requires start < end <= |data| && end - start <= p.max && (end < |data| ==> end - start >= p.min)
    requires Tiles(rest, end, |data|)
    requires forall i :: 0 <= i < |rest| ==> rest[i].length <= p.max && rest[i].offset + rest[i].length <= |data|
                                             && rest[i].hash ==
                                                digest(data[rest[i].offset..rest[i].offset + rest[i].length])
    requires forall i :: 0 <= i < |rest| - 1 ==> rest[i].length >= p.min
    ensures var c := [Chunk(digest(data[start..end]), start, end - start)] + rest;
            && Tiles(c, start, |data|)
            && (forall i :: 0 <= i < |c| ==> c[i].length <= p.max && c[i].offset + c[i].length <= |data|
                                             && c[i].hash == digest(data[c[i].offset..c[i].offset + c[i].length]))
            && (forall i :: 0 <= i < |c| - 1 ==> c[i].length >= p.min)
  {
    var c := [Chunk(digest(data[start..end]), start, end - start)] + rest;
    assert c[1..] == rest;
    assert rest == [] ==> end == |data|;
  }

  lemma ChunksCons(p: Params, digest: Bytes -> string, data: Bytes, start: nat, end: nat)
    requires start < |data| && ValidParams(p) && end == NextCut(p, data, start, start + 1)
    ensures start < end <= |data|
    ensures Chunks(p, digest, data, start) ==
            [Chunk(digest(data[start..end]), start, end - start)] + Chunks(p, digest, data, end)
  {
    assert Chunks(p, digest, data, start) == Resume(p, digest, data, start, start + 1);
  }

  lemma {:induction false} CutBounds(p: Params, data: Bytes, start: nat, from: nat)
    requires start < from <= |data| && ValidParams(p) && from - start <= p.max
    ensures var end := NextCut(p, data, start, from); end - start <= p.max && (end < |data| ==> end - start >= p.min)
    decreases |data| - from
  {
    hide HashAt;
    if from < |data| && !CutsAt(p, data, start, from) {
      CutBounds(p, data, start, from + 1);
    }
  }

  // ---------------------------------------------------------------- locality

  /** The window never reaches back over the start of a chunk, or the hash does not decide: every
      cut is forced, or every hash calls for one. */
  predicate Forgets(p: Params) {
    p.window <= p.min || p.min == p.max || p.avg == 1
  }

  /** What came before a cut point does not matter for the next one. */
  lemma SameTest(p: Params, before: Bytes, data: Bytes, start: nat, end: nat)
    requires ValidParams(p) && Forgets(p) && start < end <= |data|
    ensures CutsAt(p, before + data, |before| + start, |before| + end) <==> CutsAt(p, data, start, end)
  {
    hide Poly;
    if p.window <= p.min && end - start >= p.min {
      assert Last((before + data)[..|before| + end], p.window) == Last(data[..end], p.window);
    }
  }

  lemma {:induction false} SameCut(p: Params, before: Bytes, data: Bytes, start: nat, from: nat)
    requires ValidParams(p) && Forgets(p) && start < from <= |data|
    ensures NextCut(p, before + data, |before| + start, |before| + from) == |before| + NextCut(p, data, start, from)
    decreases |data| - from
  {
    hide CutsAt, IsPowerOfTwo;
    SameTest(p, before, data, start, from);
    if from < |data| && !CutsAt(p, data, start, from) {
      SameCut(p, before, data, start, from + 1);
    }
  }

  /** The same chunks, further along the file. */
  function Moved(chunks: seq<Chunk>, shift: nat): seq<Chunk> {
    seq(|chunks|, i requires 0 <= i < |chunks| => Chunk(chunks[i].hash, chunks[i].offset + shift, chunks[i].length))
  }

  lemma SameSlice(before: Bytes, data: Bytes, start: nat, end: nat)
    requires start <= end <= |data|
    ensures (before + data)[|before| + start..|before| + end] == data[start..end]
  {
  }

  /** Chunking a file from a cut point on is chunking the rest of it alone. */
  lemma {:induction false} ChunkingIsLocal(p: Params, digest: Bytes -> string, before: Bytes, data: Bytes, start: nat)
    requires ValidParams(p) && Forgets(p) && start <= |data|
    ensures Chunks(p, digest, before + data, |before| + start) == Moved(Chunks(p, digest, data, start), |before|)
    decreases |data| - start
  {
    hide IsPowerOfTwo, HashAt, CutsAt;
    if start < |data| {
      var end := NextCut(p, data, start, start + 1);
      SameCut(p, before, data, start, start + 1);
      ChunkingIsLocal(p, digest, before, data, end);
      SameSlice(before, data, start, end);
      var head := Chunk(digest(data[start..end]), start, end - start);
      assert Chunks(p, digest, data, start) == [head] + Chunks(p, digest, data, end);
      assert Chunks(p, digest, before + data, |before| + start) ==
             [Chunk(digest(data[start..end]), |before| + start, end - start)] +
                 Chunks(p, digest, before + data, |before| + end);
    }
  }

  /** Two files that end alike and are both cut where the common end begins have the same chunks
      from there on: one edit does not shift the rest. */
  lemma SharedSuffix(p: Params, digest: Bytes -> string, a: Bytes, b: Bytes, suffix: Bytes)
    requires ValidParams(p) && Forgets(p)
    ensures var x, y := Chunks(p, digest, a + suffix, |a|), Chunks(p, digest, b + suffix, |b|);
            && |x| == |y|
            && forall i :: 0 <= i < |x| ==>
                 x[i].hash == y[i].hash && x[i].length == y[i].length && x[i].offset - |a| == y[i].offset - |b|
  {
    hide *;
    ChunkingIsLocal(p, digest, a, suffix, 0);
    ChunkingIsLocal(p, digest, b, suffix, 0);
    MovedAlike(Chunks(p, digest, suffix, 0), |a|, |b|);
  }

  lemma MovedAlike(c: seq<Chunk>, m: nat, n: nat)
    ensures var x, y := Moved(c, m), Moved(c, n);
            && |x| == |y|
            && forall i :: 0 <= i < |x| ==>
                 x[i].hash == y[i].hash && x[i].length == y[i].length && x[i].offset - m == y[i].offset - n
  {
  }

  /** With a longer window it can matter: here the same two bytes are one chunk alone and two behind
      a cut. */
  lemma LongWindowIsNotLocal(digest: Bytes -> string)
    ensures var p := Params(1, 2, 4, 2);
            && ValidParams(p) && NextCut(p, [1, 1, 1, 3], 0, 1) == 2
            && NextCut(p, [1, 1] + [1, 3], 2, 3) == 3 && NextCut(p, [1, 3], 0, 1) == 2
  {
    var p := Params(1, 2, 4, 2);
    var whole: Bytes := [1, 1, 1, 3];
    var tail: Bytes := [1, 3];
    assert [1, 1] + tail == whole;
    PairHash(p, whole, 1);
    PairHash(p, whole, 2);
    PairHash(p, whole, 3);
    PairHash(p, tail, 1);
    hide HashAt;
    assert !CutsAt(p, whole, 0, 1) && CutsAt(p, whole, 0, 2);
    assert CutsAt(p, whole, 2, 3);
    assert !CutsAt(p, tail, 0, 1);
  }

  lemma PairHash(p: Params, data: Bytes, end: nat)
    requires p.window == 2 && 0 < end <= |data| && forall i :: 0 <= i < |data| ==> 0 <= data[i] < 256
    ensures HashAt(p, data, end) == if end == 1 then data[0] else data[end - 2] * BASE + data[end - 1]
  {
    var w := Last(data[..end], 2);
    if end == 1 {
      assert w == [data[0]] && w[..0] == [];
      assert Poly(w) == data[0];
    } else {
      assert w == [data[end - 2], data[end - 1]];
      var v := w[..1];
      assert v == [data[end - 2]] && v[..0] == [];
      assert Poly(v) == data[end - 2];
      assert Poly(w) == data[end - 2] * BASE + data[end - 1];
    }
  }

  // ---------------------------------------------------------------- reference-counted blocks

  function CountOf(refs: map<string, nat>, h: string): nat {
    if h in refs then refs[h] else 0
  }

  /** A block is kept under its digest for as long as references to it are out, and they are counted. */
  ghost predicate Counted(digest: Bytes -> string, blocks: map<string, Bytes>, refs: map<string, nat>,
                          held: multiset<string>) {
    && blocks.Keys == refs.Keys
    && (forall h :: held[h] == CountOf(refs, h))
    && (forall h :: h in refs ==> refs[h] > 0)
    && (forall h :: h in blocks ==> digest(blocks[h]) == h)
  }

  lemma CountedPut(digest: Bytes -> string, blocks: map<string, Bytes>, refs: map<string, nat>, held: multiset<string>,
                   payload: Bytes)
    requires Counted(digest, blocks, refs, held)
    ensures var h := digest(payload);
            Counted(digest, if h in blocks then blocks else blocks[h := payload],
                    refs[h := CountOf(refs, h) + 1], held + multiset{h})
  {
  }

  lemma CountedRelease(digest: Bytes -> string, blocks: map<string, Bytes>, refs: map<string, nat>,
                       held: multiset<string>, h: string)
    requires Counted(digest, blocks, refs, held)
    ensures held[h] == CountOf(refs, h)
    ensures if CountOf(refs, h) > 1 then Counted(digest, blocks, refs[h := refs[h] - 1], held - multiset{h})
            else Counted(digest, blocks - {h}, refs - {h}, held - multiset{h})
  {
  }

  /** Every block with its payload and how many references are out. */
  class ChunkStore {
    const digest: Bytes -> string
    var blocks: map<string, Bytes>
    var refs: map<string, nat>
    var duplicatePuts: nat
    ghost var held: multiset<string>  // references handed out and not yet released

    ghost predicate Valid()
      reads this
    {
      Counted(digest, blocks, refs, held)
    }

    constructor (digest: Bytes -> string)
      ensures Valid() && this.digest == digest && held == multiset{} && blocks == map[]
    {
      this.digest, blocks, refs, duplicatePuts, held := digest, map[], map[], 0, multiset{};
    }

    /** Store a block once, and count one more reference to it. */
    method Put(payload: Bytes) returns (h: string, isNew: bool)
      requires Valid()
      modifies this
      ensures Valid() && h == digest(payload) && held == old(held) + multiset{h}
      ensures isNew <==> h !in old(blocks)
      ensures blocks == if isNew then old(blocks)[h := payload] else old(blocks)
      ensures duplicatePuts == if isNew then old(duplicatePuts) else old(duplicatePuts) + 1
    {
      CountedPut(digest, blocks, refs, held, payload);
      hide Counted;
      h := digest(payload);
      isNew := h !in blocks;
      if isNew {
        blocks := blocks[h := payload];
      } else {
        duplicatePuts := duplicatePuts + 1;
      }
      refs := refs[h := CountOf(refs, h) + 1];
      held := held + multiset{h};
    }

    /** A block somebody still refers to can always be read, and under a digest that tells payloads
        apart it is the payload that was put. */
    method Get(h: string) returns (r: Result<Bytes>)
      requires Valid()
      ensures r.Ok? <==> h in held
      ensures r.Ok? ==>
                digest(r.value) == h && forall payload ::
                                          digest(payload) == h && (forall x, y :: digest(x) == digest(y) ==> x == y) ==>
                                                r.value == payload
    {
      if h !in blocks {
        return NotFound;
      }
      return Ok(blocks[h]);
    }

    /** Drop one reference; the block goes with the last one. */
    method Release(h: string)
      requires Valid()
      modifies this
      ensures Valid() && held == old(held) - multiset{h}
      ensures blocks == if old(held)[h] > 1 then old(blocks) else old(blocks) - {h}
    {
      CountedRelease(digest, blocks, refs, held, h);
      hide Counted;
      var remaining: int := CountOf(refs, h) - 1;
      if remaining > 0 {
        refs := refs[h := remaining];
      } else {
        refs := refs - {h};
        blocks := blocks - {h};
      }
      held := held - multiset{h};
    }
  }
}
