/** Merkle trees over hashed buckets, and the top-down diff that anti-entropy runs on them. */
module MerkleTree {
  import opened Powers
  import opened StringOrder

  datatype Diff = Diff(buckets: seq<nat>, comparisons: nat)

  datatype Result<+T> = Ok(value: T) | Invalid

  // ---------------------------------------------------------------- hashes of subtrees

  /** The hash at `(level, index)`: a leaf's own, or its two children combined. */
  ghost function NodeHash<H>(leafs: seq<H>, combine: (H, H) -> H, level: nat, index: nat): H
    requires First(level, index + 1) <= |leafs|
    decreases level
  {
    if level == 0 then leafs[index] else
      ChildRange(level, index);
      combine(NodeHash(leafs, combine, level - 1, 2 * index), NodeHash(leafs, combine, level - 1, 2 * index + 1))
  }

  /** The first leaf below the node at `(level, index)`. */
  ghost function First(level: nat, index: nat): nat {
    index * Pow2(level)
  }

  lemma ChildRange(level: nat, index: nat)
    requires level > 0
    ensures First(level, index) == First(level - 1, 2 * index)
    ensures First(level - 1, 2 * index) <= First(level - 1, 2 * index + 1) <= First(level - 1, 2 * index + 2)
    ensures First(level - 1, 2 * index + 2) == First(level, index + 1)
  {
    assert Pow2(level) == 2 * Pow2(level - 1);
    var p := Pow2(level - 1);
    assert (2 * index + 1) * p == 2 * index * p + p;
    assert (2 * index + 2) * p == 2 * index * p + 2 * p;
  }

  ghost predicate Differs<H>(a: seq<H>, b: seq<H>, combine: (H, H) -> H, level: nat, index: nat)
    requires |a| == |b| && First(level, index + 1) <= |a|
  {
    NodeHash(a, combine, level, index) != NodeHash(b, combine, level, index)
  }

  /** The leaf buckets the walk reports below `(level, index)`, left to right. */
  ghost function Found<H>(a: seq<H>, b: seq<H>, combine: (H, H) -> H, level: nat, index: nat): (s: seq<nat>)
    requires |a| == |b| && First(level, index + 1) <= |a|
    decreases level
  {
    if !Differs(a, b, combine, level, index) then []
    else if level == 0 then [index]
    else
      ChildRange(level, index);
      Found(a, b, combine, level - 1, 2 * index) + Found(a, b, combine, level - 1, 2 * index + 1)
  }

  /** How many hash pairs the walk compares below `(level, index)`. */
  ghost function Cost<H>(a: seq<H>, b: seq<H>, combine: (H, H) -> H, level: nat, index: nat): (c: nat)
    requires |a| == |b| && First(level, index + 1) <= |a|
    ensures c > 0
    decreases level
  {
    if !Differs(a, b, combine, level, index) || level == 0 then 1
    else
      ChildRange(level, index);
      1 + Cost(a, b, combine, level - 1, 2 * index) + Cost(a, b, combine, level - 1, 2 * index + 1)
  }

  ghost predicate Injective<H(!new)>(combine: (H, H) -> H) {
    forall w, x, y, z :: combine(w, x) == combine(y, z) ==> w == y && x == z
  }

  ghost predicate Increasing(s: seq<nat>, lo: nat, hi: nat) {
    && (forall i :: 0 <= i < |s| ==> lo <= s[i] < hi)
    && (forall i, j :: 0 <= i < j < |s| ==> s[i] < s[j])
  }

  lemma IncreasingConcat(x: seq<nat>, y: seq<nat>, lo: nat, mid: nat, hi: nat)
    requires Increasing(x, lo, mid) && Increasing(y, mid, hi) && lo <= mid <= hi
    ensures Increasing(x + y, lo, hi)
  {
  }

  /** Everything found lies below the node, in increasing order, and differs. */
  lemma {:induction false} FoundIsSorted<H>(a: seq<H>, b: seq<H>, combine: (H, H) -> H, level: nat, index: nat)
    requires |a| == |b| && First(level, index + 1) <= |a|
    ensures Increasing(Found(a, b, combine, level, index), First(level, index), First(level, index + 1))
    ensures forall leaf :: leaf in Found(a, b, combine, level, index) ==> leaf < |a| && a[leaf] != b[leaf]
    decreases level
  {
    if Differs(a, b, combine, level, index) && level > 0 {
      ChildRange(level, index);
      FoundIsSorted(a, b, combine, level - 1, 2 * index);
      FoundIsSorted(a, b, combine, level - 1, 2 * index + 1);
      IncreasingConcat(Found(a, b, combine, level - 1, 2 * index), Found(a, b, combine, level - 1, 2 * index + 1),
                       First(level, index), First(level - 1, 2 * index + 1), First(level, index + 1));
    }
  }

  /** Every differing leaf is found: with an injective digest no difference cancels out on the
      way up. */
  lemma {:induction false} FoundIsComplete<H(!new)>(a: seq<H>, b: seq<H>, combine: (H, H) -> H, level: nat, index: nat,
                                                    leaf: nat)
    requires |a| == |b| && First(level, index + 1) <= |a| && Injective(combine)
    requires First(level, index) <= leaf < First(level, index + 1) && a[leaf] != b[leaf]
    ensures Differs(a, b, combine, level, index) && leaf in Found(a, b, combine, level, index)
    decreases level
  {
    if level > 0 {
      ChildRange(level, index);
      if leaf < First(level - 1, 2 * index + 1) {
        FoundIsComplete(a, b, combine, level - 1, 2 * index, leaf);
      } else {
        FoundIsComplete(a, b, combine, level - 1, 2 * index + 1, leaf);
      }
    }
  }

  /** A differing hash always leads to a differing leaf. */
  lemma {:induction false} DifferenceIsFound<H>(a: seq<H>, b: seq<H>, combine: (H, H) -> H, level: nat, index: nat)
    requires |a| == |b| && First(level, index + 1) <= |a| && Differs(a, b, combine, level, index)
    ensures |Found(a, b, combine, level, index)| >= 1
    decreases level
  {
    if level > 0 {
      ChildRange(level, index);
      if Differs(a, b, combine, level - 1, 2 * index) {
        DifferenceIsFound(a, b, combine, level - 1, 2 * index);
      } else {
        DifferenceIsFound(a, b, combine, level - 1, 2 * index + 1);
      }
    }
  }

  lemma BoundStep(level: nat, x: nat, y: nat)
    requires level > 0 && x + y >= 1
    ensures 1 + (1 + 2 * (level - 1) * x) + (1 + 2 * (level - 1) * y) <= 1 + 2 * level * (x + y)
  {
    assert 2 * level * (x + y) == 2 * (level - 1) * x + 2 * (level - 1) * y + 2 * (x + y);
  }

  /** About two comparisons per level for each differing bucket, and one when nothing differs. */
  lemma {:induction false} CostIsBounded<H>(a: seq<H>, b: seq<H>, combine: (H, H) -> H, level: nat, index: nat)
    requires |a| == |b| && First(level, index + 1) <= |a|
    ensures Cost(a, b, combine, level, index) <= 1 + 2 * level * |Found(a, b, combine, level, index)|
    decreases level
  {
    if Differs(a, b, combine, level, index) && level > 0 {
      ChildRange(level, index);
      CostIsBounded(a, b, combine, level - 1, 2 * index);
      CostIsBounded(a, b, combine, level - 1, 2 * index + 1);
      DifferenceIsFound(a, b, combine, level, index);
      BoundStep(level, |Found(a, b, combine, level - 1, 2 * index)|, |Found(a, b, combine, level - 1, 2 * index + 1)|);
    }
  }

  // ---------------------------------------------------------------- buckets and their text

  /** The least key of a non-empty bucket. */
  ghost function LeastKey(bucket: map<string, string>): (k: string)
    requires bucket != map[]
    ensures k in bucket && forall x :: x in bucket && x != k ==> StrLess(k, x)
  {
    LeastExists(bucket.Keys);
    var k :| k in bucket && forall x :: x in bucket && x != k ==> StrLess(k, x);
    k
  }

  lemma {:induction false} LeastExists(keys: set<string>)
    requires keys != {}
    ensures exists k :: k in keys && forall x :: x in keys && x != k ==> StrLess(k, x)
    decreases |keys|
  {
    hide StrLess;
    var some :| some in keys;
    if keys == {some} {
      assert some in keys;
    } else {
      var rest := keys - {some};
      LeastExists(rest);
      var k :| k in rest && forall x :: x in rest && x != k ==> StrLess(k, x);
      LeastOfBoth(keys, some, k);
    }
  }

  lemma LeastOfBoth(keys: set<string>, some: string, k: string)
    requires some in keys && k in keys && k != some
    requires forall x :: x in keys && x != k && x != some ==> StrLess(k, x)
    ensures exists l :: l in keys && forall x :: x in keys && x != l ==> StrLess(l, x)
  {
    hide StrLess;
    Total(k, some);
    if StrLess(some, k) {
      forall x | x in keys && x != some ensures StrLess(some, x) {
        if x != k {
          Transitive(some, k, x);
        }
      }
      assert some in keys;
    } else {
      assert k in keys;
    }
  }

  /** What a leaf digest is taken of: `key=value` lines, sorted by key. */
  ghost function LeafText(bucket: map<string, string>): string
    decreases |bucket|
  {
    if bucket == map[] then "" else
      var k := LeastKey(bucket);
      k + ['='] + (bucket[k] + ['\n'] + LeafText(bucket - {k}))
  }

  /** A key that cannot be mistaken for part of another line, and a value that stays on its line. */
  predicate OneLine(key: string, value: string) {
    '=' !in key && '\n' !in key && '\n' !in value
  }

  lemma SplitAtMark(x: string, y: string, r: string, s: string, mark: char)
    requires mark !in x && mark !in y
    requires x + [mark] + r == y + [mark] + s
    ensures x == y && r == s
  {
    var t := x + [mark] + r;
    assert t[|x|] == mark && t[|y|] == (y + [mark] + s)[|y|] == mark;
    assert forall i :: 0 <= i < |x| ==> t[i] == x[i];
    assert forall i :: 0 <= i < |y| ==> t[i] == (y + [mark] + s)[i] == y[i];
    assert |x| == |y|;
    assert x == t[..|x|] && y == (y + [mark] + s)[..|y|];
    assert r == t[|x| + 1..] && s == (y + [mark] + s)[|y| + 1..];
  }

  /** On one-line entries the text determines the bucket, so a digest of it can stand for it. */
  lemma {:induction false} TextDeterminesBucket(a: map<string, string>, b: map<string, string>)
    requires forall k :: k in a ==> OneLine(k, a[k])
    requires forall k :: k in b ==> OneLine(k, b[k])
    requires LeafText(a) == LeafText(b)
    ensures a == b
    decreases |a|
  {
    hide *;
    FirstLine(a);
    FirstLine(b);
    if a != map[] && b != map[] {
      var k, m := LeastKey(a), LeastKey(b);
      var u, v := LeafText(a - {k}), LeafText(b - {m});
      SplitAtMark(k, m, a[k] + ['\n'] + u, b[m] + ['\n'] + v, '=');
      SplitAtMark(a[k], b[m], u, v, '\n');
      TextDeterminesBucket(a - {k}, b - {m});
      assert a == (a - {k})[k := a[k]] && b == (b - {m})[m := b[m]];
    }
  }

  lemma FirstLine(a: map<string, string>)
    requires forall k :: k in a ==> OneLine(k, a[k])
    ensures a == map[] <==> LeafText(a) == ""
    ensures a != map[] ==>
              var k := LeastKey(a);
              && k in a && '=' !in k && '\n' !in a[k] && |a - {k}| < |a|
              && LeafText(a) == k + ['='] + (a[k] + ['\n'] + LeafText(a - {k}))
              && forall x :: x in a - {k} ==> OneLine(x, (a - {k})[x])
  {
    if a != map[] {
      assert |LeafText(a)| > 0;
    }
  }

  /** Without that restriction two different buckets can have one text, and the diff is blind
      to the difference even under a perfect digest. */
  lemma TextCanCollide()
    ensures var a, b := map["a" := "b=c"], map["a=b" := "c"];
            a != b && LeafText(a) == LeafText(b)
  {
    var a, b: map<string, string> := map["a" := "b=c"], map["a=b" := "c"];
    assert "a" in a && "a" !in b && "a=b" in b;
    assert LeastKey(a) == "a" && LeastKey(b) == "a=b";
    assert a - {"a"} == map[] && b - {"a=b"} == map[];
    calc {
      LeafText(a);
      "a" + ['='] + ("b=c" + ['\n'] + "");
      "a=b" + ['='] + ("c" + ['\n'] + "");
      LeafText(b);
    }
  }

  // ---------------------------------------------------------------- building a tree

  /** The digests a tree is built with: `leafHash` of a bucket, `combine` of two child hashes. */
  datatype Hashing<!H> = Hashing(bucketOf: string -> nat, leafHash: map<string, string> -> H, combine: (H, H) -> H)

  datatype Tree<+H> = Tree(leaves: nat, buckets: seq<map<string, string>>, levels: seq<seq<H>>)

  ghost function BucketOfItems<H>(h: Hashing<H>, items: map<string, string>, leaves: nat, i: nat): map<string, string>
    requires leaves > 0
  {
    map k | k in items && h.bucketOf(k) % leaves == i :: items[k]
  }

  ghost predicate InTree<H>(base: seq<H>, level: nat, index: nat) {
    First(level, index + 1) <= |base|
  }

  /** `level` holds the hashes of the nodes `l` levels above the leaves `base`. */
  ghost predicate LevelAt<H>(combine: (H, H) -> H, base: seq<H>, height: nat, l: nat, level: seq<H>) {
    && l <= height && |level| == Pow2(height - l)
    && First(l, |level|) == |base|
    && forall i :: 0 <= i < |level| ==> InTree(base, l, i) && level[i] == NodeHash(base, combine, l, i)
  }

  ghost predicate LevelsOf<H>(combine: (H, H) -> H, levels: seq<seq<H>>, height: nat) {
    && 0 < |levels| <= height + 1 && |levels[0]| == Pow2(height)
    && forall l :: 0 <= l < |levels| ==> LevelAt(combine, levels[0], height, l, levels[l])
  }

  /** The tree built from `items`: each bucket's own entries, hashed and folded up to one root. */
  ghost predicate BuiltFrom<H>(tree: Tree<H>, h: Hashing<H>, items: map<string, string>, height: nat) {
    && tree.leaves == Pow2(height) == |tree.buckets|
    && (forall i :: 0 <= i < tree.leaves ==> tree.buckets[i] == BucketOfItems(h, items, tree.leaves, i))
    && LevelsOf(h.combine, tree.levels, height) && |tree.levels| == height + 1
    && (forall i :: 0 <= i < tree.leaves ==> tree.levels[0][i] == h.leafHash(tree.buckets[i]))
  }

  method FillBuckets<H>(items: map<string, string>, leaves: nat, h: Hashing<H>)
      returns (buckets: seq<map<string, string>>)
    requires leaves > 0
    ensures |buckets| == leaves
    ensures forall i :: 0 <= i < leaves ==> buckets[i] == BucketOfItems(h, items, leaves, i)
  {
    buckets := seq(leaves, _ => map[]);
    var rest := items.Keys;
    while rest != {}
      invariant rest <= items.Keys && |buckets| == leaves
      invariant forall i :: 0 <= i < leaves ==>
                  buckets[i] == BucketOfItems(h, map k | k in items && k !in rest :: items[k], leaves, i)
      decreases |rest|
    {
      var key :| key in rest;
      var b := h.bucketOf(key) % leaves;
      buckets := buckets[b := buckets[b][key := items[key]]];
      rest := rest - {key};
    }
    assert (map k | k in items && k !in rest :: items[k]) == items;
  }

  /** One level up: hash adjacent pairs. */
  function PairUp<H>(combine: (H, H) -> H, level: seq<H>): seq<H> {
    seq(|level| / 2, i requires 0 <= i < |level| / 2 => combine(level[2 * i], level[2 * i + 1]))
  }

  lemma PairUpLevel<H>(combine: (H, H) -> H, base: seq<H>, height: nat, l: nat, level: seq<H>)
    requires LevelAt(combine, base, height, l, level) && |level| > 1
    ensures LevelAt(combine, base, height, l + 1, PairUp(combine, level))
  {
    hide First, NodeHash;
    var next, up := PairUp(combine, level), l + 1;
    assert l < height;
    assert |level| == 2 * Pow2(height - (l + 1));
    ChildRange(l + 1, |next|);
    forall i | 0 <= i < |next|
      ensures InTree(base, up, i) && next[i] == NodeHash(base, combine, up, i)
    {
      assert InTree(base, l, 2 * i + 1);
      assert level[2 * i] == NodeHash(base, combine, l, 2 * i);
      assert level[2 * i + 1] == NodeHash(base, combine, l, 2 * i + 1);
      CombinedHash(base, combine, l, i);
    }
  }

  lemma CombinedHash<H>(base: seq<H>, combine: (H, H) -> H, l: nat, i: nat)
    requires First(l, 2 * i + 2) <= |base|
    ensures First(l, 2 * i + 1) <= First(l, 2 * i + 2) == First(l + 1, i + 1)
    ensures NodeHash(base, combine, l + 1, i) ==
            combine(NodeHash(base, combine, l, 2 * i), NodeHash(base, combine, l, 2 * i + 1))
  {
    ChildRange(l + 1, i);
  }

  lemma BottomLevel<H>(combine: (H, H) -> H, level: seq<H>, height: nat)
    requires |level| == Pow2(height)
    ensures LevelsOf(combine, [level], height)
  {
    forall i | 0 <= i < |level|
      ensures InTree(level, 0, i) && level[i] == NodeHash(level, combine, 0, i)
    {
      assert First(0, i + 1) == i + 1;
    }
    assert First(0, |level|) == |level|;
  }

  method Build<H>(items: map<string, string>, leaves: int, h: Hashing<H>)
      returns (r: Result<Tree<H>>, ghost height: nat)
    ensures r.Ok? <==> leaves >= 1 && IsPowerOfTwo(leaves)
    ensures r.Ok? ==> r.value.leaves == leaves && BuiltFrom(r.value, h, items, height)
  {
    hide LevelsOf, BucketOfItems;
    height := 0;
    if leaves < 1 || !IsPowerOfTwo(leaves) {
      return Invalid, 0;
    }
    height := PowerOfTwoHeight(leaves);
    var buckets := FillBuckets(items, leaves, h);
    var level := seq(leaves, i requires 0 <= i < leaves => h.leafHash(buckets[i]));
    var levels := [level];
    BottomLevel(h.combine, level, height);
    while |level| > 1
      invariant LevelsOf(h.combine, levels, height) && 0 < |levels| <= height + 1 && level == levels[|levels| - 1]
      invariant levels[0] == seq(leaves, i requires 0 <= i < leaves => h.leafHash(buckets[i]))
      decreases height + 1 - |levels|
    {
      AddLevel(h.combine, levels, height);
      level := PairUp(h.combine, level);
      levels := levels + [level];
    }
    LastLevel(h.combine, levels, height);
    return Ok(Tree(leaves, buckets, levels)), height;
  }

  lemma AddLevel<H>(combine: (H, H) -> H, levels: seq<seq<H>>, height: nat)
    requires LevelsOf(combine, levels, height) && |levels[|levels| - 1]| > 1
    ensures LevelsOf(combine, levels + [PairUp(combine, levels[|levels| - 1])], height) && |levels| <= height
  {
    hide LevelAt;
    var l := |levels| - 1;
    assert LevelAt(combine, levels[0], height, l, levels[l]);
    PairUpLevel(combine, levels[0], height, l, levels[l]);
    LevelBound(combine, levels[0], height, l + 1, PairUp(combine, levels[l]));
  }

  lemma LevelBound<H>(combine: (H, H) -> H, base: seq<H>, height: nat, l: nat, level: seq<H>)
    requires LevelAt(combine, base, height, l, level)
    ensures l <= height
  {
  }

  lemma LastLevel<H>(combine: (H, H) -> H, levels: seq<seq<H>>, height: nat)
    requires LevelsOf(combine, levels, height) && |levels[|levels| - 1]| <= 1
    ensures |levels| == height + 1
  {
    assert LevelAt(combine, levels[0], height, |levels| - 1, levels[|levels| - 1]);
    assert Pow2(height - (|levels| - 1)) <= 1;
  }

  // ---------------------------------------------------------------- the diff

  type Pair = (nat, nat)  // (level, index)

  ghost predicate InRange<H>(a: seq<H>, pending: seq<Pair>) {
    forall p :: p in pending ==> First(p.0, p.1 + 1) <= |a|
  }

  /** What the pairs still pending, last first, are going to report. */
  ghost function FoundAll<H>(a: seq<H>, b: seq<H>, combine: (H, H) -> H, pending: seq<Pair>): seq<nat>
    requires |a| == |b| && InRange(a, pending)
  {
    if pending == [] then [] else
      var k := |pending| - 1;
      Found(a, b, combine, pending[k].0, pending[k].1) + FoundAll(a, b, combine, pending[..k])
  }

  ghost function CostAll<H>(a: seq<H>, b: seq<H>, combine: (H, H) -> H, pending: seq<Pair>): nat
    requires |a| == |b| && InRange(a, pending)
  {
    if pending == [] then 0 else
      var k := |pending| - 1;
      Cost(a, b, combine, pending[k].0, pending[k].1) + CostAll(a, b, combine, pending[..k])
  }

  lemma PushPair<H>(a: seq<H>, b: seq<H>, combine: (H, H) -> H, pending: seq<Pair>, p: Pair)
    requires |a| == |b| && InRange(a, pending) && First(p.0, p.1 + 1) <= |a|
    ensures InRange(a, pending + [p])
    ensures FoundAll(a, b, combine, pending + [p]) == Found(a, b, combine, p.0, p.1) + FoundAll(a, b, combine, pending)
    ensures CostAll(a, b, combine, pending + [p]) == Cost(a, b, combine, p.0, p.1) + CostAll(a, b, combine, pending)
  {
    assert (pending + [p])[..|pending|] == pending;
  }

  /** Descending into a differing node trades it for its two children, left child on top. */
  lemma Descend<H>(a: seq<H>, b: seq<H>, combine: (H, H) -> H, rest: seq<Pair>, level: nat, index: nat)
    requires |a| == |b| && InRange(a, rest) && level > 0 && First(level, index + 1) <= |a|
    requires Differs(a, b, combine, level, index)
    ensures var pending := rest + [(level - 1, 2 * index + 1)] + [(level - 1, 2 * index)];
            && InRange(a, pending)
            && FoundAll(a, b, combine, pending) == Found(a, b, combine, level, index) + FoundAll(a, b, combine, rest)
            && 1 + CostAll(a, b, combine, pending) == Cost(a, b, combine, level, index) + CostAll(a, b, combine, rest)
  {
    ChildRange(level, index);
    var x, y := Found(a, b, combine, level - 1, 2 * index), Found(a, b, combine, level - 1, 2 * index + 1);
    assert Found(a, b, combine, level, index) == x + y;
    hide First, FoundAll, CostAll, Found;
    PushPair(a, b, combine, rest, (level - 1, 2 * index + 1));
    PushPair(a, b, combine, rest + [(level - 1, 2 * index + 1)], (level - 1, 2 * index));
    assert x + (y + FoundAll(a, b, combine, rest)) == (x + y) + FoundAll(a, b, combine, rest);
  }

  lemma PopPair<H>(a: seq<H>, b: seq<H>, combine: (H, H) -> H, pending: seq<Pair>)
    requires |a| == |b| && InRange(a, pending) && pending != []
    ensures var k := |pending| - 1;
            && InRange(a, pending[..k]) && First(pending[k].0, pending[k].1 + 1) <= |a|
            && FoundAll(a, b, combine, pending) ==
               Found(a, b, combine, pending[k].0, pending[k].1) + FoundAll(a, b, combine, pending[..k])
            && CostAll(a, b, combine, pending) ==
               Cost(a, b, combine, pending[k].0, pending[k].1) + CostAll(a, b, combine, pending[..k])
  {
    assert forall p :: p in pending[..|pending| - 1] ==> p in pending;
    assert pending[|pending| - 1] in pending;
  }

  /** The loop invariant of the walk: what was reported and what is pending make up the answer. */
  ghost predicate Walking<H>(a: seq<H>, b: seq<H>, combine: (H, H) -> H, height: nat,
                             pending: seq<Pair>, differing: seq<nat>, comparisons: nat)
    requires |a| == |b| && First(height, 1) <= |a|
  {
    && InRange(a, pending)
    && differing + FoundAll(a, b, combine, pending) == Found(a, b, combine, height, 0)
    && comparisons + CostAll(a, b, combine, pending) == Cost(a, b, combine, height, 0)
  }

  lemma WalkStart<H>(a: seq<H>, b: seq<H>, combine: (H, H) -> H, height: nat)
    requires |a| == |b| && First(height, 1) <= |a|
    ensures Walking(a, b, combine, height, [(height, 0)], [], 0)
  {
    var pending: seq<Pair> := [(height, 0)];
    assert pending[..0] == [];
    assert FoundAll(a, b, combine, pending) == Found(a, b, combine, height, 0) + [];
  }

  lemma WalkEnd<H>(a: seq<H>, b: seq<H>, combine: (H, H) -> H, height: nat, differing: seq<nat>, comparisons: nat)
    requires |a| == |b| && First(height, 1) <= |a| && Walking(a, b, combine, height, [], differing, comparisons)
    ensures differing == Found(a, b, combine, height, 0) && comparisons == Cost(a, b, combine, height, 0)
  {
    assert differing + [] == differing;
  }

  lemma LeafStep<H>(a: seq<H>, b: seq<H>, combine: (H, H) -> H, level: nat, index: nat)
    requires |a| == |b| && First(level, index + 1) <= |a|
    ensures !Differs(a, b, combine, level, index) ==>
              Found(a, b, combine, level, index) == [] && Cost(a, b, combine, level, index) == 1
    ensures Differs(a, b, combine, level, index) && level == 0 ==>
              Found(a, b, combine, level, index) == [index] && Cost(a, b, combine, level, index) == 1
  {
  }

  /** One turn of the loop: compare the last pending pair and drop it, report it or descend. */
  lemma WalkStep<H>(a: seq<H>, b: seq<H>, combine: (H, H) -> H, height: nat,
                    pending: seq<Pair>, differing: seq<nat>, comparisons: nat)
    requires |a| == |b| && First(height, 1) <= |a| && pending != []
    requires Walking(a, b, combine, height, pending, differing, comparisons)
    ensures comparisons < Cost(a, b, combine, height, 0)
    ensures var rest := pending[..|pending| - 1];
            var (level, index) := pending[|pending| - 1];
            && First(level, index + 1) <= |a|
            && if !Differs(a, b, combine, level, index) then
                 Walking(a, b, combine, height, rest, differing, comparisons + 1)
               else if level == 0 then
                 Walking(a, b, combine, height, rest, differing + [index], comparisons + 1)
               else
                 Walking(a, b, combine, height, rest + [(level - 1, 2 * index + 1)] + [(level - 1, 2 * index)],
                         differing, comparisons + 1)
  {
    hide *;
    WalkInRange(a, b, combine, height, pending, differing, comparisons);
    PopPair(a, b, combine, pending);
    var rest := pending[..|pending| - 1];
    var (level, index) := pending[|pending| - 1];
    LeafStep(a, b, combine, level, index);
    if Differs(a, b, combine, level, index) && level > 0 {
      Descend(a, b, combine, rest, level, index);
      var next := rest + [(level - 1, 2 * index + 1)] + [(level - 1, 2 * index)];
      WalkMoves(a, b, combine, height, pending, differing, comparisons, next, []);
    } else {
      WalkMoves(a, b, combine, height, pending, differing, comparisons, rest, Found(a, b, combine, level, index));
    }
    assert differing + [] == differing;
  }

  lemma WalkInRange<H>(a: seq<H>, b: seq<H>, combine: (H, H) -> H, height: nat,
                       pending: seq<Pair>, differing: seq<nat>, comparisons: nat)
    requires |a| == |b| && First(height, 1) <= |a| && Walking(a, b, combine, height, pending, differing, comparisons)
    ensures InRange(a, pending)
  {
  }

  /** Reporting `found` and going on with `next` keeps the invariant when the two make up `pending`. */
  lemma WalkMoves<H>(a: seq<H>, b: seq<H>, combine: (H, H) -> H, height: nat,
                     pending: seq<Pair>, differing: seq<nat>, comparisons: nat, next: seq<Pair>, found: seq<nat>)
    requires |a| == |b| && First(height, 1) <= |a|
    requires Walking(a, b, combine, height, pending, differing, comparisons)
    requires InRange(a, pending) && InRange(a, next) &&
             FoundAll(a, b, combine, pending) == found + FoundAll(a, b, combine, next)
    requires CostAll(a, b, combine, pending) == 1 + CostAll(a, b, combine, next)
    ensures Walking(a, b, combine, height, next, differing + found, comparisons + 1)
    ensures comparisons < Cost(a, b, combine, height, 0)
  {
    hide Found, Cost, First, FoundAll, CostAll, InRange;
    assert differing + (found + FoundAll(a, b, combine, next)) == (differing + found) + FoundAll(a, b, combine, next);
  }

  /** The walk visits buckets left to right, so the sort at its end has nothing to move. */
  method DiffTrees<H(==)>(mine: Tree<H>, theirs: Tree<H>, ghost combine: (H, H) -> H, ghost height: nat)
      returns (r: Result<Diff>)
    requires LevelsOf(combine, mine.levels, height) && |mine.levels| == height + 1 && mine.leaves == Pow2(height)
    requires theirs.leaves == mine.leaves ==>
               LevelsOf(combine, theirs.levels, height) && |theirs.levels| == height + 1
    ensures theirs.leaves != mine.leaves ==> r == Invalid
    ensures theirs.leaves == mine.leaves ==>
              && |mine.levels[0]| == |theirs.levels[0]| == First(height, 1)
              && r == Ok(Diff(Found(mine.levels[0], theirs.levels[0], combine, height, 0),
                              Cost(mine.levels[0], theirs.levels[0], combine, height, 0)))
  {
    if theirs.leaves != mine.leaves {
      return Invalid;
    }
    ghost var a, b := mine.levels[0], theirs.levels[0];
    assert First(height, 1) == Pow2(height);
    var differing: seq<nat>, comparisons: nat := [], 0;
    var pending: seq<Pair> := [(|mine.levels| - 1, 0)];
    WalkStart(a, b, combine, height);
    hide LevelsOf, Walking, Found, Cost, First, Differs, Pow2;
    while pending != []
      invariant Walking(a, b, combine, height, pending, differing, comparisons)
      decreases Cost(a, b, combine, height, 0) - comparisons
    {
      WalkStep(a, b, combine, height, pending, differing, comparisons);
      var (level, index) := pending[|pending| - 1];
      Looked(mine, theirs, combine, height, level, index);
      pending := pending[..|pending| - 1];
      comparisons := comparisons + 1;
      if mine.levels[level][index] == theirs.levels[level][index] {
        continue;
      }
      if level == 0 {
        differing := differing + [index];
      } else {
        pending := pending + [(level - 1, 2 * index + 1)] + [(level - 1, 2 * index)];
      }
    }
    WalkEnd(a, b, combine, height, differing, comparisons);
    return Ok(Diff(differing, comparisons));
  }

  /** A pending pair names a stored hash, and the stored hash is the subtree's. */
  lemma Looked<H>(mine: Tree<H>, theirs: Tree<H>, combine: (H, H) -> H, height: nat, level: nat, index: nat)
    requires LevelsOf(combine, mine.levels, height) && |mine.levels| == height + 1
    requires LevelsOf(combine, theirs.levels, height) && |theirs.levels| == height + 1
    requires First(level, index + 1) <= |mine.levels[0]|
    ensures |mine.levels[0]| == |theirs.levels[0]| && level <= height
    ensures index < |mine.levels[level]| && index < |theirs.levels[level]|
    ensures mine.levels[level][index] == theirs.levels[level][index] <==>
              !Differs(mine.levels[0], theirs.levels[0], combine, level, index)
  {
    assert (index + 1) * Pow2(level) >= Pow2(level);
    if level > height {
      Pow2Grows(height, level);
    }
    assert LevelAt(combine, mine.levels[0], height, level, mine.levels[level]);
    assert LevelAt(combine, theirs.levels[0], height, level, theirs.levels[level]);
    Inside(level, index, |mine.levels[level]|);
  }

  lemma Inside(level: nat, index: nat, n: nat)
    requires First(level, index + 1) <= First(level, n)
    ensures index < n
  {
    var past := index + 1 - n;
    assert First(level, index + 1) == First(level, n) + past * Pow2(level);
  }

  // ---------------------------------------------------------------- what the diff is worth

  /** The leaf digest is an injective digest of the bucket's text. */
  ghost predicate DigestsText<H>(h: Hashing<H>) {
    forall a, b :: h.leafHash(a) == h.leafHash(b) <==> LeafText(a) == LeafText(b)
  }

  /** Under an injective digest the diff reports exactly the buckets whose texts differ, in
      order, for one comparison when there is none and about two per level for each. */
  lemma DiffIsExact<H(!new)>(mine: Tree<H>, theirs: Tree<H>, h: Hashing<H>, x: map<string, string>,
                             y: map<string, string>, height: nat)
    requires BuiltFrom(mine, h, x, height) && BuiltFrom(theirs, h, y, height)
    requires Injective(h.combine) && DigestsText(h)
    ensures First(height, 1) == |mine.levels[0]| == |theirs.levels[0]|
    ensures var d := Found(mine.levels[0], theirs.levels[0], h.combine, height, 0);
            && Increasing(d, 0, mine.leaves)
            && (forall i :: i in d <==>
                  0 <= i < mine.leaves && LeafText(mine.buckets[i]) != LeafText(theirs.buckets[i]))
            && Cost(mine.levels[0], theirs.levels[0], h.combine, height, 0) <= 1 + 2 * height * |d|
  {
    hide LeafText;
    var a, b := mine.levels[0], theirs.levels[0];
    assert First(height, 1) == Pow2(height) && First(height, 0) == 0;
    FoundIsSorted(a, b, h.combine, height, 0);
    CostIsBounded(a, b, h.combine, height, 0);
    forall i | 0 <= i < mine.leaves && LeafText(mine.buckets[i]) != LeafText(theirs.buckets[i])
      ensures i in Found(a, b, h.combine, height, 0)
    {
      FoundIsComplete(a, b, h.combine, height, 0, i);
    }
  }

  /** For one-line entries those are exactly the buckets that hold different entries. */
  lemma DiffFindsEveryDifference<H(!new)>(mine: Tree<H>, theirs: Tree<H>, h: Hashing<H>, x: map<string, string>,
                                          y: map<string, string>, height: nat)
    requires BuiltFrom(mine, h, x, height) && BuiltFrom(theirs, h, y, height)
    requires Injective(h.combine) && DigestsText(h)
    requires forall k :: k in x ==> OneLine(k, x[k])
    requires forall k :: k in y ==> OneLine(k, y[k])
    ensures First(height, 1) == |mine.levels[0]| == |theirs.levels[0]|
    ensures var d := Found(mine.levels[0], theirs.levels[0], h.combine, height, 0);
            && (forall i :: i in d <==> 0 <= i < mine.leaves && mine.buckets[i] != theirs.buckets[i])
            && (d == [] <==> x == y)
  {
    hide LeafText;
    DiffIsExact(mine, theirs, h, x, y, height);
    var d := Found(mine.levels[0], theirs.levels[0], h.combine, height, 0);
    forall i | 0 <= i < mine.leaves
      ensures LeafText(mine.buckets[i]) == LeafText(theirs.buckets[i]) <==> mine.buckets[i] == theirs.buckets[i]
    {
      if LeafText(mine.buckets[i]) == LeafText(theirs.buckets[i]) {
        TextDeterminesBucket(mine.buckets[i], theirs.buckets[i]);
      }
    }
    if d == [] {
      SameBuckets(mine.buckets, h, x, y, mine.leaves);
    } else {
      assert d[0] in d;
    }
  }

  lemma SameBuckets<H>(buckets: seq<map<string, string>>, h: Hashing<H>, x: map<string, string>, y: map<string, string>,
                       leaves: nat)
    requires leaves == |buckets| > 0
    requires forall i :: 0 <= i < leaves ==>
               buckets[i] == BucketOfItems(h, x, leaves, i) == BucketOfItems(h, y, leaves, i)
    ensures x == y
  {
    forall k ensures k in x <==> k in y {
      var i := h.bucketOf(k) % leaves;
      assert k in x <==> k in BucketOfItems(h, x, leaves, i);
      assert k in y <==> k in BucketOfItems(h, y, leaves, i);
      assert buckets[i] == BucketOfItems(h, x, leaves, i) == BucketOfItems(h, y, leaves, i);
    }
    forall k | k in x ensures x[k] == y[k] {
      var i := h.bucketOf(k) % leaves;
      assert x[k] == BucketOfItems(h, x, leaves, i)[k];
      assert buckets[i] == BucketOfItems(h, x, leaves, i) == BucketOfItems(h, y, leaves, i);
    }
  }
}
