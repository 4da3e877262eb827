/** Exactly when the chunks behind a cut do not depend on what came before it. */
module ChunkLocality {
  import opened Powers
  import opened Chunker

  ghost predicate IsBytes(s: Bytes) {
    forall i :: 0 <= i < |s| ==> 0 <= s[i] < 256
  }

  /** The chunker, started on the whole file, begins a chunk at `at`. */
  ghost predicate StartsChunk(p: Params, digest: Bytes -> string, data: Bytes, at: nat)
    requires ValidParams(p)
  {
    var c := Chunks(p, digest, data, 0);
    exists i :: 0 <= i < |c| && c[i].offset == at
  }

  /** Wherever a file is cut, its chunks from there on are the chunks of the rest of it alone. */
  ghost predicate Local(p: Params, digest: Bytes -> string)
    requires ValidParams(p)
  {
    forall before, data :: IsBytes(before) && IsBytes(data) && StartsChunk(p, digest, before + data, |before|) ==>
      Chunks(p, digest, before + data, |before|) == Moved(Chunks(p, digest, data, 0), |before|)
  }

  // ---------------------------------------------------------------- polynomials

  lemma {:induction false} PolyConcat(s: Bytes, t: Bytes)
    ensures Poly(s + t) == Poly(s) * Pow(BASE, |t|) + Poly(t)
  {
    if t == [] {
      assert s + t == s;
    } else {
      var n := |t| - 1;
      PolyConcat(s, t[..n]);
      assert (s + t)[..|s + t| - 1] == s + t[..n];
      PolyStepUp(Poly(s), Pow(BASE, n), Poly(t[..n]), t[n]);
    }
  }

  lemma PolyStepUp(x: int, p: int, y: int, last: int)
    ensures (x * p + y) * BASE + last == x * (BASE * p) + (y * BASE + last)
  {
    assert x * (BASE * p) == (x * p) * BASE;
  }

  lemma PolyAppend(s: Bytes, b: int)
    ensures Poly(s + [b]) == Poly(s) * BASE + b
  {
    assert (s + [b])[..|s|] == s;
  }

  function Zeros(n: nat): (s: Bytes)
    ensures |s| == n && IsBytes(s)
  {
    seq(n, _ => 0)
  }

  lemma {:induction false} PolyZeros(n: nat)
    ensures Poly(Zeros(n)) == 0
  {
    if n > 0 {
      PolyZeros(n - 1);
      assert Zeros(n)[..n - 1] == Zeros(n - 1);
    }
  }

  /** The polynomial of eight bytes, written out. */
  lemma PolyOfEight(a: int, b: int, c: int, d: int, e: int, f: int, g: int, h: int)
    ensures Poly([a, b, c, d, e, f, g, h]) ==
            ((((((a * BASE + b) * BASE + c) * BASE + d) * BASE + e) * BASE + f) * BASE + g) * BASE + h
  {
    PolyOfFour(a, b, c, d);
    hide Poly;
    PolyAppend([a, b, c, d], e);
    PolyAppend([a, b, c, d] + [e], f);
    PolyAppend([a, b, c, d] + [e] + [f], g);
    PolyAppend([a, b, c, d] + [e] + [f] + [g], h);
    assert [a, b, c, d] + [e] + [f] + [g] + [h] == [a, b, c, d, e, f, g, h];
  }

  lemma PolyOfFour(a: int, b: int, c: int, d: int)
    ensures Poly([a, b, c, d]) == ((a * BASE + b) * BASE + c) * BASE + d
  {
    assert Poly([]) == 0;
    hide Poly;
    PolyAppend([], a);
    PolyAppend([] + [a], b);
    PolyAppend([] + [a] + [b], c);
    PolyAppend([] + [a] + [b] + [c], d);
    assert [] + [a] + [b] + [c] + [d] == [a, b, c, d];
  }

  /** The polynomial of these bytes is `n`. */
  ghost predicate Spells(s: Bytes, n: int) {
    IsBytes(s) && Poly(s) == n
  }

  /** Leading zeros are free. */
  lemma SpellsWide(s: Bytes, n: int, more: nat)
    requires Spells(s, n)
    ensures Spells(Zeros(more) + s, n)
  {
    hide Poly, Pow;
    PolyZeros(more);
    PolyConcat(Zeros(more), s);
    assert 0 * Pow(BASE, |s|) == 0;
    assert Poly(Zeros(more) + s) == n;
    assert IsBytes(Zeros(more) + s);
  }

  // ---------------------------------------------------------------- numbers just below the modulus

  /** 2^61, one more than the modulus. */
  const TOP: int := 0x2000_0000_0000_0000

  /** 2^61 less a power of 128 can be spelled with bytes: no digit to the base 257 is 256. */
  lemma SpellBelowTop(i: nat) returns (s: Bytes)
    requires 1 <= i <= 8
    ensures |s| == 8 && Spells(s, TOP - Pow(128, i))
  {
    PowersOf128();
    hide Poly, Pow;
    match i
    case 1 => s := [31, 35, 153, 169, 89, 99, 223, 97]; PolyOfEight(31, 35, 153, 169, 89, 99, 223, 97);
    case 2 => s := [31, 35, 153, 169, 89, 99, 160, 32]; PolyOfEight(31, 35, 153, 169, 89, 99, 160, 32);
    case 3 => s := [31, 35, 153, 169, 89, 68, 30, 193]; PolyOfEight(31, 35, 153, 169, 89, 68, 30, 193);
    case 4 => s := [31, 35, 153, 169, 73, 147, 175, 241]; PolyOfEight(31, 35, 153, 169, 73, 147, 175, 241);
    case 5 => s := [31, 35, 153, 161, 121, 51, 255, 217]; PolyOfEight(31, 35, 153, 161, 121, 51, 255, 217);
    case 6 => s := [31, 35, 149, 189, 49, 139, 203, 229]; PolyOfEight(31, 35, 149, 189, 49, 139, 203, 229);
    case 7 => s := [31, 33, 165, 139, 129, 69, 235, 223]; PolyOfEight(31, 33, 165, 139, 129, 69, 235, 223);
    case 8 => s := [30, 42, 132, 204, 54, 120, 216, 226]; PolyOfEight(30, 42, 132, 204, 54, 120, 216, 226);
  }

  lemma PowersOf128()
    ensures Pow(128, 1) == 0x80 && Pow(128, 2) == 0x4000 && Pow(128, 3) == 0x20_0000 && Pow(128, 4) == 0x1000_0000
    ensures Pow(128, 5) == 0x8_0000_0000 && Pow(128, 6) == 0x400_0000_0000
    ensures Pow(128, 7) == 0x2_0000_0000_0000 && Pow(128, 8) == 0x100_0000_0000_0000
    ensures Pow(128, 9) == 0x8000_0000_0000_0000
  {
    assert Pow(128, 1) == 128 * Pow(128, 0);
    assert Pow(128, 2) == 128 * Pow(128, 1);
    assert Pow(128, 3) == 128 * Pow(128, 2);
    assert Pow(128, 4) == 128 * Pow(128, 3);
    assert Pow(128, 5) == 128 * Pow(128, 4);
    assert Pow(128, 6) == 128 * Pow(128, 5);
    assert Pow(128, 7) == 128 * Pow(128, 6);
    assert Pow(128, 8) == 128 * Pow(128, 7);
    assert Pow(128, 9) == 128 * Pow(128, 8);
  }

  lemma {:induction false} PowGrows(i: nat, j: nat)
    requires i <= j
    ensures 0 < Pow(128, i) <= Pow(128, j)
  {
    if 0 < i {
      PowGrows(i - 1, j - 1);
    } else if 0 < j {
      PowGrows(i, j - 1);
    }
  }

  /** The next power of 128 is at most 128 times as large. */
  lemma {:induction false} NextPowerOf128(avg: int) returns (i: nat, q: int)
    requires IsPowerOfTwo(avg) && avg > 1
    ensures i >= 1 && 1 <= q <= 128 && IsPowerOfTwo(q) && Pow(128, i) == avg * q
  {
    if avg == 2 {
      i, q := 1, 64;
      assert Pow(128, 1) == 128 * Pow(128, 0);
      assert IsPowerOfTwo(2) && IsPowerOfTwo(4) && IsPowerOfTwo(8) && IsPowerOfTwo(16) && IsPowerOfTwo(32);
    } else {
      var j, r := NextPowerOf128(avg / 2);
      if r == 1 {
        i, q := j + 1, 64;
        assert IsPowerOfTwo(2) && IsPowerOfTwo(4) && IsPowerOfTwo(8) && IsPowerOfTwo(16) && IsPowerOfTwo(32);
      } else {
        i, q := j, r / 2;
        assert avg * q == avg / 2 * (2 * q);
      }
    }
  }

  lemma DividesTop(i: nat) returns (t: int)
    requires 1 <= i <= 8
    ensures TOP == t * Pow(128, i)
  {
    PowersOf128();
    hide Pow;
    t := [0x40_0000_0000_0000, 0x8000_0000_0000, 0x100_0000_0000, 0x2_0000_0000, 0x400_0000, 0x8_0000, 0x1000,
          0x20][i - 1];
  }

  // ---------------------------------------------------------------- powers of the base

  /** The base has an inverse, so none of its powers vanishes. */
  lemma {:induction false} NoPowerVanishes(e: nat)
    ensures Pow(BASE, e) % Mod() != 0
  {
    if e > 0 {
      NoPowerVanishes(e - 1);
      var x := Pow(BASE, e - 1);
      if (BASE * x) % Mod() == 0 {
        var q := BASE * x / Mod();
        Cancelled(x, q, 1327878464449909357);
        assert false;
      }
    }
  }

  lemma Cancelled(x: int, q: int, inverse: int)
    requires inverse == 1327878464449909357 && BASE * x == q * Mod()
    ensures x % Mod() == 0
  {
    var m := Mod();
    assert 257 * inverse == 148 * m + 1;
    assert inverse * (BASE * x) == (inverse * BASE) * x == (148 * m + 1) * x == (148 * x) * m + x;
    assert inverse * (q * m) == (inverse * q) * m;
    var r := inverse * q - 148 * x;
    assert x == r * m;
    SameQuotient(x, m, r, 0);
  }

  /** The short powers are odd and small. */
  lemma ShortPower(e: nat)
    requires e < 8
    ensures Short(Pow(BASE, e))
  {
    assert Pow(BASE, 0) == 1;
    assert Pow(BASE, 1) == 257 * Pow(BASE, 0);
    assert Pow(BASE, 2) == 257 * Pow(BASE, 1);
    assert Pow(BASE, 3) == 257 * Pow(BASE, 2);
    assert Pow(BASE, 4) == 257 * Pow(BASE, 3);
    assert Pow(BASE, 5) == 257 * Pow(BASE, 4);
    assert Pow(BASE, 6) == 257 * Pow(BASE, 5);
    assert Pow(BASE, 7) == 257 * Pow(BASE, 6);
  }

  // ---------------------------------------------------------------- the byte before the cut

  /** What the bytes before a cut, `c` the last of them, add to the hash `power` further on. */
  function Behind(a: int, c: int, power: int): (y: int)
    ensures 0 <= y < Mod()
  {
    ((a * BASE + c) * power) % Mod()
  }

  /** One more in the last byte adds the power, or wraps around. */
  lemma BehindNext(a: int, c: int, power: int, y: int, h: int)
    requires y == Behind(a, c, power) && h == power % Mod()
    ensures Behind(a, c + 1, power) == if y + h < Mod() then y + h else y + h - Mod()
  {
    var m := Mod();
    var x := (a * BASE + c) * power;
    assert (a * BASE + (c + 1)) * power == x + power;
    ModLinear(x, 1, power, m);
    ModLinear(power, 1, y, m);
    assert (x + power) % m == (y + h) % m;
    if y + h < m {
      SameQuotient(y + h, m, 0, y + h);
    } else {
      SameQuotient(y + h, m, 1, y + h - m);
    }
  }

  lemma SumOfMultiples(x: int, y: int, m: int)
    requires m > 0 && x % m == 0 && y % m == 0
    ensures (x + y) % m == 0 && (x - y) % m == 0
  {
    var i, j := x / m, y / m;
    assert x == i * m && y == j * m;
    assert x + y == (i + j) * m && x - y == (i - j) * m;
    SameQuotient(x + y, m, i + j, 0);
    SameQuotient(x - y, m, i - j, 0);
  }

  lemma EvenMultiple(x: int, m: int)
    requires m > 0 && m % 2 == 0 && x % m == 0
    ensures x % 2 == 0
  {
    var q, half := x / m, m / 2;
    assert x == q * (2 * half) == 2 * (q * half);
  }

  lemma AtLeastItself(x: int, m: int)
    requires m > 0 && x > 0 && x % m == 0
    ensures x >= m
  {
  }

  /** Where the power is a multiple of `avg`, going up never wraps around. */
  lemma {:induction false} Climb(a: int, power: int, avg: int, n: nat, h: int) returns (c: nat)
    requires avg > 1 && avg % 2 == 0 && h == power % Mod() && h > 0 && h % avg == 0
    ensures c <= n && (Behind(a, c, power) % avg != 0 || (c == n && Behind(a, c, power) >= n * avg))
  {
    c := n;
    if n > 0 && Behind(a, n, power) % avg == 0 {
      c := Climb(a, power, avg, n - 1, h);
      if Behind(a, c, power) % avg == 0 {
        hide Behind;
        c := n;
        var y := Behind(a, n - 1, power);
        BehindNext(a, n - 1, power, y, h);
        AtLeastItself(h, avg);
        SumOfMultiples(y, h, avg);
        if y + h >= Mod() {
          SumOfMultiples(y + h, Behind(a, n, power), avg);
          EvenMultiple(Mod(), avg);
        }
        assert (n - 1) * avg + avg == n * avg;
      }
    }
  }

  /** Where it is not, going up always wraps around, or leaves the multiples of `avg`. */
  lemma {:induction false} Descend(a: int, power: int, avg: int, n: nat, h: int) returns (c: nat)
    requires avg > 1 && h == power % Mod() && h % avg != 0
    ensures c <= n
    ensures Behind(a, c, power) % avg != 0 ||
            (c == 0 && Behind(a, 0, power) == Behind(a, n, power) + n * (Mod() - h) &&
             (n > 0 ==> (Mod() - h) % avg == 0))
  {
    c := n;
    if n > 0 && Behind(a, n, power) % avg == 0 {
      c := Descend(a, power, avg, n - 1, h);
      hide Behind;
      var y := Behind(a, n - 1, power);
      if Behind(a, c, power) % avg == 0 {
        if y % avg != 0 {
          c := n - 1;
        } else {
          BehindNext(a, n - 1, power, y, h);
          if y + h < Mod() {
            SumOfMultiples(y + h, y, avg);
          } else {
            SumOfMultiples(y, Behind(a, n, power), avg);
          }
          assert (n - 1) * (Mod() - h) + (Mod() - h) == n * (Mod() - h);
        }
      }
    }
  }

  /** A power that is odd and less than a third of the modulus. */
  predicate Short(power: int) {
    power % 2 == 1 && 0 < power && 3 * power < Mod()
  }

  lemma ShortIsNoMultiple(power: int, avg: int)
    requires Short(power) && avg > 1 && avg % 2 == 0
    ensures power % Mod() == power && power % avg != 0
  {
    SameQuotient(power, Mod(), 0, power);
    if power % avg == 0 {
      EvenMultiple(power, avg);
    }
  }

  lemma FarDescent(top: int, bottom: int, h: int, avg: int)
    requires top == bottom + 255 * (Mod() - h) && 0 <= bottom && 0 <= h < Mod() && avg > 1 && (Mod() - h) % avg == 0
    ensures top >= 255 * avg && (3 * h < Mod() ==> top >= Mod())
  {
    AtLeastItself(Mod() - h, avg);
  }

  /** Some last byte leaves a hash that is no multiple of `avg`, or else a large one. */
  lemma LastByte(a: int, power: int, avg: int) returns (c: nat)
    requires avg > 1 && avg % 2 == 0 && power % Mod() != 0
    ensures c < 256
    ensures Behind(a, c, power) % avg != 0 || Behind(a, c, power) >= 255 * avg
    ensures Short(power) ==> Behind(a, c, power) % avg != 0
  {
    hide *;
    var h := power % Mod();
    if Short(power) {
      ShortIsNoMultiple(power, avg);
    }
    if h % avg == 0 {
      c := Climb(a, power, avg, 255, h);
    } else {
      c := Descend(a, power, avg, 255, h);
      if Behind(a, c, power) % avg == 0 {
        FarDescent(Behind(a, 0, power), Behind(a, 255, power), h, avg);
        ShortPart(power, h);
      }
    }
  }

  lemma ShortPart(power: int, h: int)
    requires h == power % Mod()
    ensures Short(power) ==> 3 * h < Mod()
  {
    if Short(power) {
      SameQuotient(power, Mod(), 0, power);
    }
  }

  // ---------------------------------------------------------------- the counterexample

  /** Two bytes above a number, or none, a multiple of `avg` can always be avoided. */
  lemma QuietByte(x: int, avg: int) returns (b: int)
    requires avg > 1
    ensures 0 <= b < 3 && ((x + b) % Mod()) % avg != 0
  {
    var m := Mod();
    var r := x % m;
    b := if r % avg != 0 then 0 else if r + 1 < m then 1 else 2;
    ModLinear(x, 1, b, m);
    assert (x + b) % m == (r + b) % m;
    if b == 1 {
      SameQuotient(r + 1, m, 0, r + 1);
      SameQuotient(r + 1, avg, r / avg, 1);
    } else if b == 2 {
      SameQuotient(r + 2, m, 1, 1);
    }
  }

  /** No hash calls for a cut. */
  ghost predicate Quiet(p: Params, s: Bytes)
    requires ValidParams(p)
  {
    forall end :: 0 < end <= |s| ==> HashAt(p, s, end) % p.avg != 0
  }

  /** There are such files of any length. */
  lemma {:induction false} QuietFile(p: Params, n: nat) returns (s: Bytes)
    requires ValidParams(p) && p.avg > 1
    ensures |s| == n && IsBytes(s) && Quiet(p, s)
  {
    if n == 0 {
      s := [];
    } else {
      var t := QuietFile(p, n - 1);
      var b := QuietByte(Poly(Last(t, p.window - 1)) * BASE, p.avg);
      s := t + [b];
      hide Poly, HashAt, Last;
      HashNewest(p, t, b);
      forall end | 0 < end < n ensures HashAt(p, s, end) == HashAt(p, t, end) {
        HashEarlier(p, t, [b], end);
      }
    }
  }

  lemma HashNewest(p: Params, t: Bytes, b: int)
    requires p.window > 0
    ensures HashAt(p, t + [b], |t| + 1) == (Poly(Last(t, p.window - 1)) * BASE + b) % Mod()
  {
    hide Poly;
    PolyAppend(Last(t, p.window - 1), b);
    assert (t + [b])[..|t| + 1] == t + [b];
    assert Last(t + [b], p.window) == Last(t, p.window - 1) + [b];
  }

  lemma HashEarlier(p: Params, t: Bytes, more: Bytes, end: nat)
    requires p.window > 0 && end <= |t|
    ensures HashAt(p, t + more, end) == HashAt(p, t, end)
  {
    assert (t + more)[..end] == t[..end];
  }

  /** Bytes before the cut, the last of them left open, and a chunk's worth behind it whose hash tells. */
  ghost predicate Telling(p: Params, a: int, c: int, word: Bytes)
    requires ValidParams(p)
  {
    && 0 <= c < 256 && |word| == p.min && IsBytes(word)
    && HashOf(word) % p.avg == 0
    && ((a * BASE + c) * Pow(BASE, |word|) + Poly(word)) % Mod() % p.avg != 0
  }

  lemma TellingWord(p: Params, a: int) returns (c: int, word: Bytes)
    requires ValidParams(p) && p.avg > 1
    ensures Telling(p, a, c, word)
  {
    var power := Pow(BASE, p.min);
    NoPowerVanishes(p.min);
    c := LastByte(a, power, p.avg);
    var y := Behind(a, c, power);
    if y % p.avg != 0 {
      word := Zeros(p.min);
      PolyZeros(p.min);
    } else {
      if p.min < 8 {
        ShortPower(p.min);
        assert false;
      }
      word := BigWord(p, y);
      hide *;
      ModLinear((a * BASE + c) * power, 1, Poly(word), Mod());
    }
  }

  lemma BigWord(p: Params, y: int) returns (word: Bytes)
    requires ValidParams(p) && p.avg > 1 && p.min >= 8 && 255 * p.avg <= y < Mod() && y % p.avg == 0
    ensures |word| == p.min && IsBytes(word)
    ensures HashOf(word) % p.avg == 0 && (y + Poly(word)) % Mod() % p.avg != 0
  {
    var i, q := NextPowerOf128(p.avg);
    BelowTop(p.avg, i, q, y);
    var tail := SpellBelowTop(i);
    word := Zeros(p.min - 8) + tail;
    hide Poly, Pow, IsPowerOfTwo, Mod;
    SpellsWide(tail, TOP - Pow(128, i), p.min - 8);
  }

  /** The number below 2^61 wraps around behind the cut and not without it. */
  lemma BelowTop(avg: int, i: nat, q: int, y: int)
    requires IsPowerOfTwo(avg) && avg > 1 && 1 <= i && 1 <= q <= 128 && Pow(128, i) == avg * q
    requires 255 * avg <= y < Mod() && y % avg == 0
    ensures i <= 8
    ensures var n := TOP - Pow(128, i); n % Mod() % avg == 0 && (y + n) % Mod() % avg != 0
  {
    var far := Pow(128, i);
    SmallPower(i, avg, q, y);
    var t := DividesTop(i);
    hide *;
    Regroup(t, q, avg);
    SameQuotient(TOP, avg, t * q, 0);
    SameQuotient(far, avg, q, 0);
    WrapsToOne(avg, far, y);
  }

  lemma Regroup(t: int, q: int, avg: int)
    ensures t * (avg * q) == (t * q) * avg && avg * q == q * avg
  {
  }

  lemma SmallPower(i: nat, avg: int, q: int, y: int)
    requires 1 <= i && 1 <= q <= 128 && Pow(128, i) == avg * q && 0 < 255 * avg <= y < Mod()
    ensures i <= 8 && 1 < Pow(128, i) <= y
  {
    PowersOf128();
    AtMost(avg, q);
    hide Pow;
    if i > 8 {
      PowGrows(9, i);
      assert false;
    }
    PowGrows(1, i);
  }

  lemma AtMost(avg: int, q: int)
    requires 0 < avg && 1 <= q <= 128
    ensures avg * q <= 128 * avg
  {
    assert (128 - q) * avg >= 0;
  }

  lemma WrapsToOne(avg: int, far: int, y: int)
    requires 1 < avg && 1 < far <= y < Mod() && TOP % avg == far % avg == y % avg == 0
    ensures var n := TOP - far; n % Mod() % avg == 0 && (y + n) % Mod() % avg != 0
  {
    var m, n := Mod(), TOP - far;
    SumOfMultiples(TOP, far, avg);
    SumOfMultiples(y, far, avg);
    SameQuotient(n, m, 0, n);
    SameQuotient(y + n, m, 1, y - far + 1);
    SameQuotient(y - far + 1, avg, (y - far) / avg, 1);
  }

  /** The window at the end of the first chunk's worth of `data`, behind `before` and alone. */
  lemma WindowBehind(p: Params, s: Bytes, c: int, word: Bytes, more: Bytes)
    requires p.window > p.min == |word|
    ensures var whole := s + [c] + (word + more);
            HashAt(p, whole, |s| + 1 + |word|) ==
                (Poly(Last(s, p.window - p.min - 1) + [c]) * Pow(BASE, |word|) + Poly(word)) % Mod()
    ensures HashAt(p, word + more, |word|) == HashOf(word)
  {
    hide Poly, Pow;
    var u := Last(s, p.window - p.min - 1) + [c];
    PolyConcat(u, word);
    assert (s + [c] + (word + more))[..|s| + 1 + |word|] == s + [c] + word;
    assert Last(s + [c] + word, p.window) == u + word;
    assert (word + more)[..|word|] == word && Last(word, p.window) == word;
  }

  /** Before any place that cuts nothing is cut. */
  lemma {:induction false} NoCutBefore(p: Params, data: Bytes, start: nat, from: nat, to: nat)
    requires ValidParams(p) && start < from <= to <= |data|
    requires forall end :: from <= end < to ==> !CutsAt(p, data, start, end)
    ensures NextCut(p, data, start, from) == NextCut(p, data, start, to)
    decreases |data| - from
  {
    if from < to {
      NoCutBefore(p, data, start, from + 1, to);
    }
  }

  lemma FirstCutIsForced(p: Params, s: Bytes, c: int, data: Bytes)
    requires ValidParams(p) && |s| == p.max - 1 && Quiet(p, s)
    ensures NextCut(p, s + [c] + data, 0, 1) == p.max
  {
    hide HashAt, IsPowerOfTwo;
    var more := [c] + data;
    assert s + [c] + data == s + more;
    forall end | 1 <= end < p.max ensures !CutsAt(p, s + more, 0, end) {
      HashEarlier(p, s, more, end);
    }
    NoCutBefore(p, s + more, 0, 1, p.max);
  }

  lemma CutAlone(p: Params, data: Bytes)
    requires ValidParams(p) && |data| >= p.min && HashAt(p, data, p.min) % p.avg == 0
    ensures NextCut(p, data, 0, 1) == p.min
  {
    hide HashAt, IsPowerOfTwo;
    NoCutBefore(p, data, 0, 1, p.min);
  }

  lemma NoCutBehind(p: Params, whole: Bytes, at: nat)
    requires ValidParams(p) && p.min < p.max && |whole| == at + p.min + 1 && HashAt(p, whole, at + p.min) % p.avg != 0
    ensures NextCut(p, whole, at, at + 1) > at + p.min
  {
    hide HashAt, IsPowerOfTwo;
    NoCutBefore(p, whole, at, at + 1, at + p.min + 1);
  }

  /** A file whose first chunk is as long as chunks get, behind which a cut is missed that is there
      without it. */
  lemma Counterexample(p: Params) returns (before: Bytes, data: Bytes)
    requires ValidParams(p) && !(p.window <= p.min || p.min == p.max || p.avg == 1)
    ensures IsBytes(before) && IsBytes(data) && |before| == p.max && |data| == p.min + 1
    ensures NextCut(p, before + data, 0, 1) == p.max
    ensures NextCut(p, data, 0, 1) == p.min
    ensures NextCut(p, before + data, p.max, p.max + 1) > p.max + p.min
  {
    var s := QuietFile(p, p.max - 1);
    var c, word := TellingWord(p, Poly(Last(s, p.window - p.min - 1)));
    before, data := s + [c], word + [0];
    hide *;
    TellingHashes(p, s, c, word);
    FirstCutIsForced(p, s, c, data);
    CutAlone(p, data);
    NoCutBehind(p, before + data, p.max);
  }

  lemma TellingHashes(p: Params, s: Bytes, c: int, word: Bytes)
    requires ValidParams(p) && p.min < p.window && p.min < p.max && |s| == p.max - 1 && IsBytes(s)
    requires Telling(p, Poly(Last(s, p.window - p.min - 1)), c, word)
    ensures var before, data := s + [c], word + [0];
            && |before| == p.max && |data| == p.min + 1 && IsBytes(before) && IsBytes(data)
            && HashAt(p, data, p.min) % p.avg == 0 && HashAt(p, before + data, p.max + p.min) % p.avg != 0
  {
    hide Poly, Pow, HashAt, Last, IsPowerOfTwo, HashOf, Mod;
    PolyAppend(Last(s, p.window - p.min - 1), c);
    WindowBehind(p, s, c, word, [0]);
  }

  /** Locality holds exactly for the parameters under which the hash cannot carry anything over. */
  lemma LocalIff(p: Params, digest: Bytes -> string)
    requires ValidParams(p)
    ensures Local(p, digest) <==> p.window <= p.min || p.min == p.max || p.avg == 1
  {
    hide Chunks, ValidParams, Moved;
    if Forgets(p) {
      forall before, data { ChunkingIsLocal(p, digest, before, data, 0); }
    } else {
      var before, data := Counterexample(p);
      FirstChunk(p, digest, before, data);
      assert !Local(p, digest);
    }
  }

  lemma FirstChunk(p: Params, digest: Bytes -> string, before: Bytes, data: Bytes)
    requires ValidParams(p) && |before| == p.max && |data| == p.min + 1
    requires NextCut(p, before + data, 0, 1) == p.max
    requires NextCut(p, data, 0, 1) == p.min
    requires NextCut(p, before + data, p.max, p.max + 1) > p.max + p.min
    ensures StartsChunk(p, digest, before + data, |before|)
    ensures Chunks(p, digest, before + data, |before|) != Moved(Chunks(p, digest, data, 0), |before|)
  {
    var whole := before + data;
    ChunksCons(p, digest, whole, 0, p.max);
    ChunksCons(p, digest, whole, p.max, NextCut(p, whole, p.max, p.max + 1));
    ChunksCons(p, digest, data, 0, p.min);
    hide Chunks, NextCut;
    assert Chunks(p, digest, whole, 0)[1].offset == p.max;
    assert Moved(Chunks(p, digest, data, 0), |before|)[0].length == p.min;
  }
}
