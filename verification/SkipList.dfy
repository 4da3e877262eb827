/** The skip list with span counters behind the leaderboard's sorted set. */
module SkipList {
  import opened StringOrder

  datatype Entry = Entry(member: string, score: real)

  datatype Result<+T> = Ok(value: T) | NotFound | Invalid

  /** Board order: highest score first, ties broken by member ascending. */
  predicate Before(a: Entry, b: Entry) {
    a.score > b.score || (a.score == b.score && StrLess(a.member, b.member))
  }

  lemma BeforeIrreflexive(a: Entry)
    ensures !Before(a, a)
  {
    Irreflexive(a.member);
  }

  lemma BeforeTransitive(a: Entry, b: Entry, c: Entry)
    requires Before(a, b) && Before(b, c)
    ensures Before(a, c)
  {
    if a.score == b.score == c.score {
      Transitive(a.member, b.member, c.member);
    }
  }

  lemma BeforeTotal(a: Entry, b: Entry)
    ensures Before(a, b) || a == b || Before(b, a)
  {
    Total(a.member, b.member);
  }

  ghost predicate Sorted(s: seq<Entry>) {
    forall i, j :: 0 <= i < j < |s| ==> Before(s[i], s[j])
  }

  /** `s` holds exactly the items of `scores`. */
  ghost predicate Lists(s: seq<Entry>, scores: map<string, real>) {
    forall e :: e in s <==> e.member in scores && scores[e.member] == e.score
  }

  /** `s` is the board of `scores`: all of its items, in board order. */
  ghost predicate IsBoard(s: seq<Entry>, scores: map<string, real>) {
    Sorted(s) && Lists(s, scores)
  }

  /** `c` splits `s` at `probe`: the first `c` entries sort before it and no other does. */
  ghost predicate Splits(s: seq<Entry>, probe: Entry, c: int) {
    && 0 <= c <= |s|
    && (forall i :: 0 <= i < c ==> Before(s[i], probe))
    && (forall i :: c <= i < |s| ==> !Before(s[i], probe))
  }

  /** A score table has one board: reading any of the list's answers reads the table. */
  lemma {:induction false} BoardIsUnique(s: seq<Entry>, t: seq<Entry>, scores: map<string, real>)
    requires IsBoard(s, scores) && IsBoard(t, scores)
    ensures s == t
  {
    SameElementsSameOrder(s, t);
  }

  lemma {:induction false} SameElementsSameOrder(s: seq<Entry>, t: seq<Entry>)
    requires Sorted(s) && Sorted(t) && forall e :: e in s <==> e in t
    ensures s == t
  {
    if s == [] {
      HeadIsMember(t);
    } else {
      assert s[0] in t && t != [] && t[0] in s;
      FirstIsLeast(s, t[0]);
      FirstIsLeast(t, s[0]);
      BeforeIrreflexive(s[0]);
      if s[0] != t[0] {
        BeforeTransitive(s[0], t[0], s[0]);
      }
      forall e ensures e in s[1..] <==> e in t[1..] {
        TailMembers(s, e);
        TailMembers(t, e);
      }
      SameElementsSameOrder(s[1..], t[1..]);
      assert s == [s[0]] + s[1..] && t == [t[0]] + t[1..];
    }
  }

  lemma HeadIsMember(t: seq<Entry>)
    ensures t == [] || t[0] in t
  {
  }

  lemma FirstIsLeast(s: seq<Entry>, e: Entry)
    requires Sorted(s) && e in s
    ensures e == s[0] || Before(s[0], e)
  {
  }

  lemma TailMembers(s: seq<Entry>, e: Entry)
    requires Sorted(s) && s != []
    ensures e in s[1..] <==> e in s && e != s[0]
  {
    BeforeIrreflexive(s[0]);
    assert s == [s[0]] + s[1..];
  }

  lemma BeforeCut(s: seq<Entry>, probe: Entry, c: int, i: nat)
    requires Splits(s, probe, c) && i < |s|
    ensures Before(s[i], probe) <==> i < c
  {
  }

  lemma SplitIsUnique(s: seq<Entry>, probe: Entry, c: int, d: int)
    requires Splits(s, probe, c) && Splits(s, probe, d)
    ensures c == d
  {
    if c < |s| {
      BeforeCut(s, probe, c, c);
      BeforeCut(s, probe, d, c);
    }
    if d < |s| {
      BeforeCut(s, probe, c, d);
      BeforeCut(s, probe, d, d);
    }
  }

  /** `count` entries of `s` from position `start`, fewer when the board ends first. */
  function Slice(s: seq<Entry>, start: nat, count: nat): seq<Entry> {
    if start >= |s| then [] else if start + count <= |s| then s[start..start + count] else s[start..]
  }

  lemma SliceStep(s: seq<Entry>, start: nat, count: nat)
    requires start <= |s|
    ensures Slice(s, start, 0) == []
    ensures start + count < |s| ==> Slice(s, start, count + 1) == Slice(s, start, count) + [s[start + count]]
    ensures forall k: nat :: start + k == |s| && k <= count ==> Slice(s, start, count) == Slice(s, start, k)
  {
  }

  /** Where an entry of the board sits. */
  lemma PositionOf(s: seq<Entry>, scores: map<string, real>, member: string) returns (c: nat)
    requires IsBoard(s, scores) && member in scores
    ensures c < |s| && s[c] == Entry(member, scores[member]) && Splits(s, s[c], c)
  {
    assert Entry(member, scores[member]) in s;
    c :| c < |s| && s[c] == Entry(member, scores[member]);
    forall i | c <= i < |s| ensures !Before(s[i], s[c]) {
      BeforeIrreflexive(s[c]);
      if i > c && Before(s[i], s[c]) {
        BeforeTransitive(s[i], s[c], s[i]);
        BeforeIrreflexive(s[i]);
      }
    }
  }

  lemma BoardWithout(s: seq<Entry>, scores: map<string, real>, member: string, c: nat)
    requires IsBoard(s, scores) && member in scores && c < |s| && s[c] == Entry(member, scores[member])
    ensures IsBoard(s[..c] + s[c + 1..], scores - {member})
  {
    hide Before;
    var t, table := s[..c] + s[c + 1..], scores - {member};
    assert forall i {:trigger t[i]} :: 0 <= i < |t| ==> t[i] == s[if i < c then i else i + 1];
    assert s == s[..c] + [s[c]] + s[c + 1..];
    forall e ensures e in t <==> e.member in table && table[e.member] == e.score {
      assert e in s <==> e in t || e == s[c];
      BeforeIrreflexive(s[c]);
    }
  }

  lemma SortedWith(s: seq<Entry>, e: Entry, c: nat)
    requires Sorted(s) && Splits(s, e, c) && e !in s
    ensures Sorted(s[..c] + [e] + s[c..])
  {
    hide Before;
    var t := s[..c] + [e] + s[c..];
    forall i, j | 0 <= i < j < |t| ensures Before(t[i], t[j]) {
      if i == c {
        assert t[j] == s[j - 1] && !Before(s[j - 1], e);
        BeforeTotal(e, s[j - 1]);
      } else if j == c {
        assert Before(s[i], e);
      } else {
        assert Before(s[if i < c then i else i - 1], s[if j < c then j else j - 1]);
      }
    }
  }

  lemma BoardWith(s: seq<Entry>, scores: map<string, real>, member: string, score: real, c: nat)
    requires IsBoard(s, scores) && member !in scores && Splits(s, Entry(member, score), c)
    ensures IsBoard(s[..c] + [Entry(member, score)] + s[c..], scores[member := score])
  {
    hide Before;
    var e, table := Entry(member, score), scores[member := score];
    SortedWith(s, e, c);
    var t := s[..c] + [e] + s[c..];
    assert s == s[..c] + s[c..];
    forall x ensures x in t <==> x.member in table && table[x.member] == x.score {
      assert x in t <==> x == e || x in s;
    }
  }

  ghost function Cut(s: seq<Entry>, probe: Entry): (c: nat)
    ensures Sorted(s) ==> Splits(s, probe, c)
  {
    if s == [] || !Before(s[0], probe) then
      CutAtFront(s, probe);
      0
    else
      1 + Cut(s[1..], probe)
  }

  lemma CutAtFront(s: seq<Entry>, probe: Entry)
    requires s == [] || !Before(s[0], probe)
    ensures Sorted(s) ==> Splits(s, probe, 0)
  {
    if Sorted(s) {
      forall i | 0 <= i < |s| ensures !Before(s[i], probe) {
        if 0 < i && Before(s[i], probe) {
          BeforeTransitive(s[0], s[i], probe);
        }
      }
    }
  }

  lemma CutOf(s: seq<Entry>, scores: map<string, real>, probe: Entry) returns (c: nat)
    requires IsBoard(s, scores)
    ensures Splits(s, probe, c) && c <= |s|
  {
    c := Cut(s, probe);
  }

  // ---------------------------------------------------------------- pure link structure

  class Node {
    const entry: Entry
    var forward: seq<Node?>
    var span: seq<int>

    constructor (entry: Entry, forward: seq<Node?>, span: seq<int>)
      ensures this.entry == entry && this.forward == forward && this.span == span
    {
      this.entry, this.forward, this.span := entry, forward, span;
    }
  }

  ghost function Forwards(ns: seq<Node>): (f: seq<seq<Node?>>)
    reads ns
    ensures |f| == |ns| && forall i :: 0 <= i < |ns| ==> f[i] == ns[i].forward
  {
    seq(|ns|, i requires 0 <= i < |ns| reads ns => ns[i].forward)
  }

  lemma InsertedFields(ns: seq<Node>, c: nat, tower: Node)
    requires c < |ns|
    ensures Forwards(Insert(ns, c, tower)) == Insert(Forwards(ns), c, tower.forward)
    ensures Spans(Insert(ns, c, tower)) == Insert(Spans(ns), c, tower.span)
  {
  }

  ghost function Spans(ns: seq<Node>): (s: seq<seq<int>>)
    reads ns
    ensures |s| == |ns| && forall i :: 0 <= i < |ns| ==> s[i] == ns[i].span
  {
    seq(|ns|, i requires 0 <= i < |ns| reads ns => ns[i].span)
  }

  ghost function Entries(ns: seq<Node>): (s: seq<Entry>)
    ensures |s| == |ns| && forall i :: 0 <= i < |ns| ==> s[i] == ns[i].entry
  {
    seq(|ns|, i requires 0 <= i < |ns| => ns[i].entry)
  }

  ghost predicate Distinct(ns: seq<Node>) {
    forall i, j :: 0 <= i < j < |ns| ==> ns[i] != ns[j]
  }

  ghost predicate NoTaller(f: seq<seq<Node?>>, lo: int, hi: int, l: int)
    requires 0 <= lo && hi <= |f|
  {
    forall j :: lo <= j < hi ==> |f[j]| <= l
  }

  lemma Fewer(f: seq<seq<Node?>>, lo: nat, hi: nat, hi': nat, l: nat)
    requires hi' <= hi <= |f| && NoTaller(f, lo, hi, l)
    ensures NoTaller(f, lo, hi', l)
  {
  }

  ghost predicate Shaped(ns: seq<Node>, f: seq<seq<Node?>>, s: seq<seq<int>>) {
    |ns| == |f| == |s| > 0 && forall i :: 0 <= i < |f| ==> |f[i]| == |s[i]|
  }

  /** The level-`l` pointer of node `i` leads to the next node tall enough, and its span is
      the level-0 distance it skips; a tail pointer's span runs to the last node. */
  ghost predicate LinkAt(ns: seq<Node>, f: seq<seq<Node?>>, s: seq<seq<int>>, i: int, l: int)
    requires Shaped(ns, f, s) && 0 <= i < |ns| && 0 <= l < |f[i]|
  {
    var q := i + s[i][l];
    if f[i][l] == null then
      q == |ns| - 1 && NoTaller(f, i + 1, |ns|, l)
    else
      i < q < |ns| && f[i][l] == ns[q] && l < |f[q]| && NoTaller(f, i + 1, q, l)
  }

  ghost predicate WellLinked(ns: seq<Node>, f: seq<seq<Node?>>, s: seq<seq<int>>, level: nat) {
    && Shaped(ns, f, s)
    && (forall i, l :: 0 <= i < |ns| && 0 <= l < |f[i]| && l < level ==> LinkAt(ns, f, s, i, l))
  }

  /** What a finished search leaves behind: at every level, the last tower at or before `c`. */
  ghost predicate PathTo(ns: seq<Node>, f: seq<seq<Node?>>, update: seq<Node>, rankAt: seq<nat>, lo: int, level: nat,
                         c: int)
    requires |f| == |ns|
  {
    && |update| == |rankAt| && level <= |update| && 0 <= c < |ns| && 0 <= lo
    && forall l :: lo <= l < level ==>
         && 0 <= rankAt[l] <= c
         && update[l] == ns[rankAt[l]]
         && l < |f[rankAt[l]]|
         && NoTaller(f, rankAt[l] + 1, c + 1, l)
  }

  ghost predicate SameHeights(f: seq<seq<Node?>>, f': seq<seq<Node?>>) {
    |f'| == |f| && forall i :: 0 <= i < |f| ==> |f'[i]| == |f[i]|
  }

  lemma SamePath(ns: seq<Node>, f: seq<seq<Node?>>, f': seq<seq<Node?>>, update: seq<Node>, rankAt: seq<nat>,
                 level: nat, c: int)
    requires |f| == |ns| && PathTo(ns, f, update, rankAt, 0, level, c)
    requires SameHeights(f, f')
    ensures PathTo(ns, f', update, rankAt, 0, level, c)
  {
  }

  lemma PathStep(ns: seq<Node>, f: seq<seq<Node?>>, update: seq<Node>, rankAt: seq<nat>, l: nat, level: nat, c: int,
                 r: nat)
    requires |f| == |ns| && l < level && PathTo(ns, f, update, rankAt, l + 1, level, c)
    requires r <= c && l < |f[r]| && NoTaller(f, r + 1, c + 1, l)
    ensures PathTo(ns, f, update[l := ns[r]], rankAt[l := r], l, level, c)
  {
  }

  /** `f'`, `s'` are `f`, `s` with room made for a node of height `h` after position `c`. */
  ghost predicate Spliced(f: seq<seq<Node?>>, s: seq<seq<int>>, f': seq<seq<Node?>>, s': seq<seq<int>>, c: int,
                          h: nat) {
    && 0 <= c < |f| == |s| && |f'| == |s'| == |f| + 1
    && |f'[c + 1]| == |s'[c + 1]| == h
    && (forall k :: 0 <= k <= c ==> |f'[k]| == |f[k]| && |s'[k]| == |s[k]|)
    && (forall k :: c + 1 < k < |f'| ==> f'[k] == f[k - 1] && s'[k] == s[k - 1])
  }

  /** The state of the splicing loop after its first `n` levels: `f'`, `s'` are the chain's
      pointers and spans, `tf`, `ts` the tower's own. */
  ghost predicate SplicedUpTo(f: seq<seq<Node?>>, s: seq<seq<int>>, f': seq<seq<Node?>>, s': seq<seq<int>>,
                              tf: seq<Node?>, ts: seq<int>, rankAt: seq<nat>, c: int, tower: Node, n: nat)
  {
    && |f| == |s| == |f'| == |s'| && |tf| == |ts| && n <= |tf| && n <= |rankAt|
    && (forall i :: 0 <= i < |f| ==> |f'[i]| == |f[i]| == |s'[i]| == |s[i]| <= |rankAt|)
    && (forall i, k {:trigger f'[i][k]} {:trigger f[i][k]} :: 0 <= i < |f| && 0 <= k < |f[i]| ==>
          f'[i][k] == if k < n && i == rankAt[k] then tower else f[i][k])
    && (forall i, k {:trigger s'[i][k]} {:trigger s[i][k]} :: 0 <= i < |s| && 0 <= k < |s[i]| ==>
          s'[i][k] == if k < n && i == rankAt[k] then c - i + 1 else s[i][k])
    && (forall k :: 0 <= k < n ==>
          && rankAt[k] < |f| && k < |f[rankAt[k]]|
          && tf[k] == f[rankAt[k]][k] && ts[k] == s[rankAt[k]][k] - (c - rankAt[k]))
  }

  lemma SplicedUpToStep(f: seq<seq<Node?>>, s: seq<seq<int>>, f': seq<seq<Node?>>, s': seq<seq<int>>,
                        tf: seq<Node?>, ts: seq<int>, rankAt: seq<nat>, c: int, tower: Node, n: nat)
    requires SplicedUpTo(f, s, f', s', tf, ts, rankAt, c, tower, n)
    requires n < |tf| && n < |rankAt| && rankAt[n] < |f| && n < |f[rankAt[n]]|
    ensures var r := rankAt[n];
            && |f'| == |s'| == |f| && |f'[r]| == |s'[r]| == |f[r]|
            && SplicedUpTo(f, s, f'[r := f'[r][n := tower]], s'[r := s'[r][n := c - r + 1]],
                        tf[n := f'[r][n]], ts[n := s'[r][n] - (c - r)], rankAt, c, tower, n + 1)
  {
  }

  lemma SplicedHeights(f: seq<seq<Node?>>, s: seq<seq<int>>, f': seq<seq<Node?>>, s': seq<seq<int>>,
                       tf: seq<Node?>, ts: seq<int>, rankAt: seq<nat>, c: int, tower: Node, n: nat)
    requires SplicedUpTo(f, s, f', s', tf, ts, rankAt, c, tower, n)
    ensures SameHeights(f, f') && |tf| == |ts|
    ensures forall i :: 0 <= i < |f'| ==> |f'[i]| == |s'[i]|
  {
  }

  function Insert<T>(s: seq<T>, c: nat, x: T): seq<T>
    requires c < |s|
  {
    s[..c + 1] + [x] + s[c + 1..]
  }

  /** `s'` is `s` with every pointer that passes over the tower, from level `n` up, one longer. */
  ghost predicate Lengthened(s: seq<seq<int>>, s': seq<seq<int>>, rankAt: seq<nat>, n: nat, level: nat) {
    && |s'| == |s| && level <= |rankAt|
    && (forall i :: 0 <= i < |s| ==> |s'[i]| == |s[i]|)
    && (forall i, k {:trigger s'[i][k]} {:trigger s[i][k]} :: 0 <= i < |s| && 0 <= k < |s[i]| ==>
          s'[i][k] == s[i][k] + if n <= k < level && i == rankAt[k] then 1 else 0)
  }

  lemma LengthenedHeights(s: seq<seq<int>>, s': seq<seq<int>>, rankAt: seq<nat>, n: nat, level: nat)
    requires Lengthened(s, s', rankAt, n, level)
    ensures |s'| == |s| && forall i :: 0 <= i < |s| ==> |s'[i]| == |s[i]|
  {
  }

  lemma NotYetLengthened(s: seq<seq<int>>, rankAt: seq<nat>, n: nat)
    requires n <= |rankAt|
    ensures Lengthened(s, s, rankAt, n, n)
  {
  }

  lemma LengthenedStep(s: seq<seq<int>>, s': seq<seq<int>>, rankAt: seq<nat>, n: nat, l: nat, next: nat)
    requires Lengthened(s, s', rankAt, n, l) && next == l + 1
    requires n <= l < |rankAt| && rankAt[l] < |s| && l < |s[rankAt[l]]|
    ensures var r := rankAt[l];
            && |s'| == |s| && |s'[r]| == |s[r]|
            && Lengthened(s, s'[r := s'[r][l := s'[r][l] + 1]], rankAt, n, next)
  {
  }

  lemma SplicedPointer(ns: seq<Node>, f: seq<seq<Node?>>, s: seq<seq<int>>, c: nat, tower: Node, h: nat,
                       f': seq<seq<Node?>>, s': seq<seq<int>>, i: nat, k: nat, l: nat)
    requires Shaped(ns, f, s) && Spliced(f, s, f', s', c, h)
    requires i < |ns| && l < |f[i]| && LinkAt(ns, f, s, i, l)
    requires k <= |ns| && l < |f'[k]| && f'[k][l] == f[i][l] && k + s'[k][l] == i + s[i][l] + 1
    requires i + s[i][l] > c || f[i][l] == null
    requires if k <= c then k == i && h <= l else i <= k - 1 && (k == c + 1 || k - 1 == i)
    ensures LinkAt(Insert(ns, c, tower), f', s', k, l)
  {
  }

  lemma SplicedAtRight(ns: seq<Node>, f: seq<seq<Node?>>, s: seq<seq<int>>, update: seq<Node>, rankAt: seq<nat>,
                       level: nat, c: nat, tower: Node, tf: seq<Node?>, ts: seq<int>,
                       f1: seq<seq<Node?>>, s1: seq<seq<int>>, s2: seq<seq<int>>)
    requires Shaped(ns, f, s) && |tf| <= level && c < |ns|
    requires PathTo(ns, f, update, rankAt, 0, level, c)
    requires SplicedUpTo(f, s, f1, s1, tf, ts, rankAt, c, tower, |tf|)
    requires Lengthened(s1, s2, rankAt, |tf|, level)
    ensures Spliced(f, s, Insert(f1, c, tf), Insert(s2, c, ts), c, |tf|)
  {
    forall j | c < j < |f| ensures f1[j] == f[j] && s2[j] == s[j] {
      forall k | 0 <= k < |f[j]| ensures f1[j][k] == f[j][k] && s1[j][k] == s[j][k] && s2[j][k] == s1[j][k] {
        assert k < level ==> rankAt[k] <= c;
      }
    }
  }

  /** A pointer at or before the new tower that either ends before it or now leads to it. */
  lemma SplicedLeft(ns: seq<Node>, f: seq<seq<Node?>>, s: seq<seq<int>>, rankAt: seq<nat>, level: nat, c: nat,
                    tower: Node,
                    tf: seq<Node?>, ts: seq<int>, f1: seq<seq<Node?>>, s1: seq<seq<int>>, s2: seq<seq<int>>, k: nat,
                    l: nat)
    requires Shaped(ns, f, s) && c < |ns| && k <= c && l < level && l < |f[k]| && LinkAt(ns, f, s, k, l)
    requires level <= |rankAt| && rankAt[l] <= c && l < |f[rankAt[l]]| && NoTaller(f, rankAt[l] + 1, c + 1, l)
    requires SplicedUpTo(f, s, f1, s1, tf, ts, rankAt, c, tower, |tf|) && Lengthened(s1, s2, rankAt, |tf|, level)
    requires !(k == rankAt[l] && |tf| <= l)
    requires Shaped(Insert(ns, c, tower), Insert(f1, c, tf), Insert(s2, c, ts)) && l < |Insert(f1, c, tf)[k]|
    ensures LinkAt(Insert(ns, c, tower), Insert(f1, c, tf), Insert(s2, c, ts), k, l)
  {
    var q := k + s[k][l];
    if k == rankAt[l] {
      assert f1[k][l] == tower && s1[k][l] == c - k + 1 && s2[k][l] == s1[k][l];
    } else {
      assert f1[k][l] == f[k][l] && s1[k][l] == s[k][l] && s2[k][l] == s1[k][l];
      assert k < rankAt[l];
      assert f[k][l] != null && q <= rankAt[l];
    }
  }

  /** Splicing a tower in after position `c` keeps every pointer and span right. */
  lemma SpliceKeepsLinks(ns: seq<Node>, f: seq<seq<Node?>>, s: seq<seq<int>>, update: seq<Node>, rankAt: seq<nat>,
                         level: nat, c: nat, tower: Node, tf: seq<Node?>, ts: seq<int>,
                         f1: seq<seq<Node?>>, s1: seq<seq<int>>, s2: seq<seq<int>>)
    requires WellLinked(ns, f, s, level) && |tf| <= level && c < |ns|
    requires PathTo(ns, f, update, rankAt, 0, level, c)
    requires SplicedUpTo(f, s, f1, s1, tf, ts, rankAt, c, tower, |tf|)
    requires Lengthened(s1, s2, rankAt, |tf|, level)
    ensures WellLinked(Insert(ns, c, tower), Insert(f1, c, tf), Insert(s2, c, ts), level)
  {
    var ns', f', s', h := Insert(ns, c, tower), Insert(f1, c, tf), Insert(s2, c, ts), |tf|;
    SplicedAtRight(ns, f, s, update, rankAt, level, c, tower, tf, ts, f1, s1, s2);
    forall k, l | 0 <= k < |ns'| && 0 <= l < |f'[k]| && l < level
      ensures LinkAt(ns', f', s', k, l)
    {
      var r := rankAt[l];
      assert l < |f[r]| && NoTaller(f, r + 1, c + 1, l);
      assert LinkAt(ns, f, s, r, l);
      if k == c + 1 {
        SplicedPointer(ns, f, s, c, tower, h, f', s', r, k, l);
      } else if k > c {
        SplicedPointer(ns, f, s, c, tower, h, f', s', k - 1, k, l);
      } else {
        assert LinkAt(ns, f, s, k, l);
        if k == r && h <= l {
          SplicedPointer(ns, f, s, c, tower, h, f', s', k, k, l);
        } else {
          SplicedLeft(ns, f, s, rankAt, level, c, tower, tf, ts, f1, s1, s2, k, l);
        }
      }
    }
  }

  function Drop<T>(s: seq<T>, t: nat): seq<T>
    requires t < |s|
  {
    s[..t] + s[t + 1..]
  }

  lemma DroppedFields(ns: seq<Node>, t: nat)
    requires t < |ns|
    ensures Forwards(Drop(ns, t)) == Drop(Forwards(ns), t)
    ensures Spans(Drop(ns, t)) == Drop(Spans(ns), t)
  {
  }

  /** The state of the unlinking loop after its first `n` levels, for the node at `t`. */
  ghost predicate BypassedUpTo(f: seq<seq<Node?>>, s: seq<seq<int>>, f': seq<seq<Node?>>, s': seq<seq<int>>,
                               rankAt: seq<nat>, t: nat, n: nat)
  {
    && t < |f| == |s| == |f'| == |s'| && n <= |rankAt|
    && (forall i :: 0 <= i < |f| ==> |f'[i]| == |f[i]| == |s'[i]| == |s[i]|)
    && (forall i, k {:trigger f'[i][k]} {:trigger f[i][k]} :: 0 <= i < |f| && 0 <= k < |f[i]| ==>
          f'[i][k] == if k < n && i == rankAt[k] && k < |f[t]| then f[t][k] else f[i][k])
    && (forall i, k {:trigger s'[i][k]} {:trigger s[i][k]} :: 0 <= i < |s| && 0 <= k < |s[i]| ==>
          s'[i][k] == if k < n && i == rankAt[k] then s[i][k] - 1 + (if k < |s[t]| then s[t][k] else 0) else s[i][k])
  }

  lemma BypassStep(f: seq<seq<Node?>>, s: seq<seq<int>>, f': seq<seq<Node?>>, s': seq<seq<int>>,
                   rankAt: seq<nat>, t: nat, n: nat)
    requires BypassedUpTo(f, s, f', s', rankAt, t, n)
    requires n < |rankAt| && rankAt[n] < t && n < |f[rankAt[n]]|
    ensures var r := rankAt[n];
            && |f'| == |s'| == |f| && |f'[r]| == |s'[r]| == |f[r]| && |f'[t]| == |s'[t]| == |f[t]|
            && f'[r][n] == f[r][n]
            && BypassedUpTo(f, s,
                 f'[r := if n < |f'[t]| then f'[r][n := f'[t][n]] else f'[r]],
                 s'[r := s'[r][n := s'[r][n] - 1 + if n < |f'[t]| then s'[t][n] else 0]], rankAt, t, n + 1)
  {
  }

  /** On the search path, exactly the levels the target's tower reaches point at it. */
  lemma TargetOnPath(ns: seq<Node>, f: seq<seq<Node?>>, s: seq<seq<int>>, update: seq<Node>, rankAt: seq<nat>,
                     level: nat, c: nat, l: nat)
    requires WellLinked(ns, f, s, level) && Distinct(ns) && PathTo(ns, f, update, rankAt, 0, level, c)
    requires l < level && c + 1 < |ns|
    ensures rankAt[l] <= c && l < |f[rankAt[l]]|
    ensures f[rankAt[l]][l] == ns[c + 1] <==> l < |f[c + 1]|
  {
    assert LinkAt(ns, f, s, rankAt[l], l);
  }

  lemma DroppedPointer(ns: seq<Node>, f: seq<seq<Node?>>, s: seq<seq<int>>, t: nat,
                       f': seq<seq<Node?>>, s': seq<seq<int>>, i: nat, k: nat, l: nat)
    requires Shaped(ns, f, s) && 0 < t < |ns| && |f'| == |s'| == |ns| - 1
    requires forall j :: 0 <= j < t ==> |f'[j]| == |f[j]| && |s'[j]| == |s[j]|
    requires forall j :: t <= j < |f'| ==> f'[j] == f[j + 1] && s'[j] == s[j + 1]
    requires i < |ns| && l < |f[i]| && LinkAt(ns, f, s, i, l)
    requires k < |f'| && l < |f'[k]| && f'[k][l] == f[i][l] && k + s'[k][l] == i + s[i][l] - 1
    requires i + s[i][l] > t || f[i][l] == null
    requires if k < t then NoTaller(f, k + 1, t, l) && ((i == k && |f[t]| <= l) || i == t) else i == k + 1
    ensures LinkAt(Drop(ns, t), f', s', k, l)
  {
  }

  /** Everything right of the unlinked node is untouched. */
  lemma BypassedAtRight(ns: seq<Node>, f: seq<seq<Node?>>, s: seq<seq<int>>, update: seq<Node>, rankAt: seq<nat>,
                        level: nat, c: nat, f1: seq<seq<Node?>>, s1: seq<seq<int>>)
    requires |f| == |ns| && PathTo(ns, f, update, rankAt, 0, level, c) && c + 1 < |ns|
    requires BypassedUpTo(f, s, f1, s1, rankAt, c + 1, level)
    ensures forall j :: c + 1 < j < |f| ==> f1[j] == f[j] && s1[j] == s[j]
  {
    forall j | c + 1 < j < |f| ensures f1[j] == f[j] && s1[j] == s[j] {
      forall k | 0 <= k < |f[j]| ensures f1[j][k] == f[j][k] && s1[j][k] == s[j][k] {
        assert k < level ==> rankAt[k] <= c;
      }
    }
  }

  /** A pointer that ends before the unlinked node is as it was. */
  lemma DroppedBefore(ns: seq<Node>, f: seq<seq<Node?>>, s: seq<seq<int>>, rankAt: seq<nat>, level: nat, c: nat,
                      f1: seq<seq<Node?>>, s1: seq<seq<int>>, k: nat, l: nat)
    requires Shaped(ns, f, s) && c + 1 < |ns| && k <= c && l < level && l < |f[k]| && level <= |rankAt| &&
             LinkAt(ns, f, s, k, l)
    requires rankAt[l] <= c && l < |f[rankAt[l]]| && NoTaller(f, rankAt[l] + 1, c + 1, l) && k != rankAt[l]
    requires BypassedUpTo(f, s, f1, s1, rankAt, c + 1, level)
    requires Shaped(Drop(ns, c + 1), Drop(f1, c + 1), Drop(s1, c + 1))
    ensures l < |Drop(f1, c + 1)[k]| && LinkAt(Drop(ns, c + 1), Drop(f1, c + 1), Drop(s1, c + 1), k, l)
  {
    var t, q := c + 1, k + s[k][l];
    assert f1[k][l] == f[k][l] && s1[k][l] == s[k][l];
    Heights(f, s, f1, s1, rankAt, t, level);
    hide BypassedUpTo;
    assert k < rankAt[l];
    assert f[k][l] != null && q <= rankAt[l];
  }

  lemma Heights(f: seq<seq<Node?>>, s: seq<seq<int>>, f': seq<seq<Node?>>, s': seq<seq<int>>, rankAt: seq<nat>, t: nat,
                n: nat)
    requires BypassedUpTo(f, s, f', s', rankAt, t, n)
    ensures |f'| == |f| && forall j :: 0 <= j < |f| ==> |f'[j]| == |f[j]|
  {
  }

  lemma DroppedLeft(ns: seq<Node>, f: seq<seq<Node?>>, s: seq<seq<int>>, rankAt: seq<nat>, level: nat, c: nat,
                    f1: seq<seq<Node?>>, s1: seq<seq<int>>, k: nat, l: nat)
    requires WellLinked(ns, f, s, level) && c + 1 < |ns| && k <= c && l < level && l < |f[k]| && level <= |rankAt|
    requires rankAt[l] <= c && l < |f[rankAt[l]]| && NoTaller(f, rankAt[l] + 1, c + 1, l)
    requires BypassedUpTo(f, s, f1, s1, rankAt, c + 1, level)
    requires forall j :: c + 1 < j < |f| ==> f1[j] == f[j] && s1[j] == s[j]
    requires Shaped(Drop(ns, c + 1), Drop(f1, c + 1), Drop(s1, c + 1))
    ensures LinkAt(Drop(ns, c + 1), Drop(f1, c + 1), Drop(s1, c + 1), k, l)
  {
    var t, r := c + 1, rankAt[l];
    var f', s' := Drop(f1, t), Drop(s1, t);
    assert LinkAt(ns, f, s, r, l);
    assert LinkAt(ns, f, s, k, l);
    assert f'[k] == f1[k] && s'[k] == s1[k];
    if k != r {
      DroppedBefore(ns, f, s, rankAt, level, c, f1, s1, k, l);
    } else if l < |f[t]| {
      assert LinkAt(ns, f, s, t, l);
      DroppedPointer(ns, f, s, t, f', s', t, k, l);
    } else {
      DroppedPointer(ns, f, s, t, f', s', k, k, l);
    }
  }

  /** Unlinking the node at position `c + 1` keeps every other pointer and span right. */
  lemma DropKeepsLinks(ns: seq<Node>, f: seq<seq<Node?>>, s: seq<seq<int>>, update: seq<Node>, rankAt: seq<nat>,
                       level: nat, c: nat, f1: seq<seq<Node?>>, s1: seq<seq<int>>)
    requires WellLinked(ns, f, s, level)
    requires PathTo(ns, f, update, rankAt, 0, level, c) && c + 1 < |ns|
    requires BypassedUpTo(f, s, f1, s1, rankAt, c + 1, level)
    ensures WellLinked(Drop(ns, c + 1), Drop(f1, c + 1), Drop(s1, c + 1), level)
  {
    var t := c + 1;
    var ns', f', s' := Drop(ns, t), Drop(f1, t), Drop(s1, t);
    BypassedAtRight(ns, f, s, update, rankAt, level, c, f1, s1);
    forall k, l | 0 <= k < |ns'| && 0 <= l < |f'[k]| && l < level
      ensures LinkAt(ns', f', s', k, l)
    {
      assert rankAt[l] <= c && l < |f[rankAt[l]]| && NoTaller(f, rankAt[l] + 1, t, l);
      if k > c {
        assert LinkAt(ns, f, s, k + 1, l);
        DroppedPointer(ns, f, s, t, f', s', k + 1, k, l);
      } else {
        DroppedLeft(ns, f, s, rankAt, level, c, f1, s1, k, l);
      }
    }
  }

  lemma DistinctDrop(ns: seq<Node>, t: nat)
    requires Distinct(ns) && 1 <= t < |ns|
    ensures Distinct(Drop(ns, t)) && |Drop(ns, t)| == |ns| - 1 && Drop(ns, t)[0] == ns[0]
  {
  }

  /** A level whose head pointer is null passes no tower, so it can be closed. */
  lemma EmptyTop(ns: seq<Node>, f: seq<seq<Node?>>, s: seq<seq<int>>, level: nat)
    requires WellLinked(ns, f, s, level) && 1 <= level <= |f[0]| && f[0][level - 1] == null
    ensures WellLinked(ns, f, s, level - 1)
    ensures forall i :: 1 <= i < |ns| ==> |f[i]| <= level - 1
  {
    assert LinkAt(ns, f, s, 0, level - 1);
  }

  /** Levels above every tower hold one pointer each: from the head to the end. */
  lemma RaiseKeepsLinks(ns: seq<Node>, f: seq<seq<Node?>>, s: seq<seq<int>>, level: nat, s': seq<seq<int>>, level': nat)
    requires WellLinked(ns, f, s, level) && level <= level' <= |f[0]|
    requires |s'| == |s| && s'[1..] == s[1..] && |s'[0]| == |s[0]| && s'[0][..level] == s[0][..level]
    requires forall l :: level <= l < level' ==> f[0][l] == null && s'[0][l] == |ns| - 1
    requires NoTaller(f, 1, |f|, level)
    ensures WellLinked(ns, f, s', level')
  {
    forall i | 0 <= i < |f| ensures |f[i]| == |s'[i]| {
      assert i > 0 ==> s'[i] == s'[1..][i - 1] == s[1..][i - 1];
    }
    forall i, l | 0 <= i < |ns| && 0 <= l < |f[i]| && l < level'
      ensures LinkAt(ns, f, s', i, l)
    {
      assert i > 0 ==> s'[i] == s'[1..][i - 1] == s[1..][i - 1];
      if l < level {
        assert LinkAt(ns, f, s, i, l);
        assert i == 0 ==> s'[0][l] == s'[0][..level][l] == s[0][..level][l];
      }
    }
  }

  lemma RaisedPath(ns: seq<Node>, f: seq<seq<Node?>>, update: seq<Node>, rankAt: seq<nat>, level: nat, c: int,
                   update': seq<Node>, rankAt': seq<nat>, level': nat)
    requires |f| == |ns| && PathTo(ns, f, update, rankAt, 0, level, c)
    requires |update'| == |rankAt'| == |update| && level <= level' <= |update| && level' <= |f[0]|
    requires update'[..level] == update[..level] && rankAt'[..level] == rankAt[..level]
    requires forall l :: level <= l < level' ==> update'[l] == ns[0] && rankAt'[l] == 0
    requires NoTaller(f, 1, |f|, level)
    ensures PathTo(ns, f, update', rankAt', 0, level', c)
  {
    forall l | 0 <= l < level ensures update'[l] == update[l] && rankAt'[l] == rankAt[l] {
      assert update'[l] == update'[..level][l] && rankAt'[l] == rankAt'[..level][l];
    }
  }

  // ---------------------------------------------------------------- the sorted set

  const MAX_LEVEL: nat := 16

  class SortedSet {
    const head: Node
    var level: nat
    var length: int
    var scores: map<string, real>
    ghost var nodes: seq<Node>  // the head, then every node in level-0 order

    /** The chain and the heights of its towers. */
    ghost predicate Towers()
      reads this`level, this`nodes, nodes
    {
      && |nodes| > 0 && nodes[0] == head && Distinct(nodes)
      && 1 <= level <= MAX_LEVEL
      && |head.forward| == |head.span| == MAX_LEVEL
      && (forall l :: level <= l < MAX_LEVEL ==> head.forward[l] == null)
      && (forall i :: 1 <= i < |nodes| ==> 1 <= |nodes[i].forward| <= level)
    }

    /** The chain, the towers and the spans. */
    ghost predicate Structure()
      reads this`level, this`length, this`nodes, nodes
    {
      && Towers()
      && length == |nodes| - 1
      && WellLinked(nodes, Forwards(nodes), Spans(nodes), level)
    }

    ghost function Contents(): seq<Entry>
      reads this`nodes
    {
      if nodes == [] then [] else Entries(nodes[1..])
    }

    ghost predicate Valid()
      reads this, nodes
    {
      Structure() && IsBoard(Contents(), scores)
    }

    lemma HasShape(rankAt: seq<nat>, c: nat, tower: Node)
      requires Structure() && |rankAt| == MAX_LEVEL && |tower.forward| == |tower.span|
      ensures SplicedUpTo(Forwards(nodes), Spans(nodes), Forwards(nodes), Spans(nodes), tower.forward, tower.span,
                          rankAt, c, tower, 0)
      ensures Shaped(nodes, Forwards(nodes), Spans(nodes))
      ensures forall i :: 0 <= i < |nodes| ==> |Forwards(nodes)[i]| <= MAX_LEVEL
    {
    }

    constructor ()
      ensures Valid() && fresh(nodes) && scores == map[] && Contents() == []
    {
      var first := new Node(Entry("", 0.0), seq(MAX_LEVEL, _ => null), seq(MAX_LEVEL, _ => 0));
      head := first;
      level, length, scores := 1, 0, map[];
      nodes := [first];
    }

    /** One comparison of a search for `key`, made at position `i` on level `l`: the pointer
        is worth following exactly while it stays at or before the cut `c`. */
    lemma Ahead(i: nat, l: nat, key: Entry, c: nat)
      requires Structure() && Splits(Contents(), key, c)
      requires i <= c < |nodes| && l < level && l < |nodes[i].forward|
      ensures l < |nodes[i].span|
      ensures var nxt, q := nodes[i].forward[l], i + nodes[i].span[l];
              if nxt != null && Before(nxt.entry, key) then
                i < q <= c && nodes[q] == nxt && l < |nxt.forward|
              else
                NoTaller(Forwards(nodes), i + 1, c + 1, l)
    {
      hide *;
      PointerAt(i, l);
      var nxt, q := nodes[i].forward[l], i + nodes[i].span[l];
      if nxt != null {
        EntryAt(q);
        BeforeCut(Contents(), key, c, q - 1);
        if q > c {
          Fewer(Forwards(nodes), i + 1, q, c + 1, l);
        }
      } else {
        Fewer(Forwards(nodes), i + 1, |nodes|, c + 1, l);
      }
    }

    lemma PointerAt(i: nat, l: nat)
      requires Structure() && i < |nodes| && l < level && l < |nodes[i].forward|
      ensures l < |nodes[i].span|
      ensures var nxt, q := nodes[i].forward[l], i + nodes[i].span[l];
              if nxt == null then NoTaller(Forwards(nodes), i + 1, |nodes|, l)
              else i < q < |nodes| && nodes[q] == nxt && l < |nxt.forward| && NoTaller(Forwards(nodes), i + 1, q, l)
    {
      assert LinkAt(nodes, Forwards(nodes), Spans(nodes), i, l);
      hide WellLinked, NoTaller;
      assert forall j {:trigger nodes[j]} :: 0 <= j < |nodes| ==> nodes[j].forward == Forwards(nodes)[j];
    }

    lemma EntryAt(q: nat)
      requires 0 < q < |nodes|
      ensures |Contents()| == |nodes| - 1 && Contents()[q - 1] == nodes[q].entry
    {
    }

    lemma CutAt(key: Entry) returns (c: nat)
      requires Valid()
      ensures Splits(Contents(), key, c) && c < |nodes|
    {
      c := Cut(Contents(), key);
    }

    lemma Reached(at: nat, c: nat)
      requires Structure() && at <= c < |nodes| && NoTaller(Forwards(nodes), at + 1, c + 1, 0)
      ensures at == c
    {
      assert Forwards(nodes)[c] == nodes[c].forward;
    }

    /** The inner loop of every search: from position `from`, along level `l`, up to `key`. */
    method Walk(start: Node, from: nat, l: nat, key: Entry, ghost c: nat) returns (node: Node, at: nat)
      requires Structure() && Splits(Contents(), key, c)
      requires from <= c < |nodes| && start == nodes[from] && l < level && l < |start.forward|
      ensures at <= c && node == nodes[at] && l < |node.forward|
      ensures NoTaller(Forwards(nodes), at + 1, c + 1, l)
    {
      hide *;
      node, at := start, from;
      var nxt := node.forward[l];
      Ahead(at, l, key, c);
      while nxt != null && Before(nxt.entry, key)
        invariant at <= c && node == nodes[at] && l < |node.forward| && nxt == node.forward[l]
        decreases c - at
      {
        Ahead(at, l, key, c);
        at := at + node.span[l];
        node := nxt;
        nxt := node.forward[l];
      }
      Ahead(at, l, key, c);
    }

    method CountAbove(score: real, member: string := "") returns (traversed: nat)
      requires Valid()
      ensures Splits(Contents(), Entry(member, score), traversed)
    {
      hide WellLinked, IsBoard, Before;
      var key := Entry(member, score);
      ghost var c := CutAt(key);
      var node := head;
      traversed := 0;
      for l := level downto 0
        invariant traversed <= c && node == nodes[traversed] && l <= |node.forward|
        invariant l == 0 ==> NoTaller(Forwards(nodes), traversed + 1, c + 1, l)
      {
        node, traversed := Walk(node, traversed, l, key, c);
      }
      Reached(traversed, c);
    }

    /** The descent shared by `Link` and `Unlink`: the last node before `key` on every level,
        with its position. */
    method Search(key: Entry, ghost c: nat) returns (update: seq<Node>, rankAt: seq<nat>)
      requires Structure() && Splits(Contents(), key, c) && c < |nodes|
      ensures |update| == |rankAt| == MAX_LEVEL
      ensures PathTo(nodes, Forwards(nodes), update, rankAt, 0, level, c) && rankAt[0] == c
    {
      hide WellLinked, Before, Contents, Splits;
      update, rankAt := seq(MAX_LEVEL, _ => head), seq(MAX_LEVEL, _ => 0);
      var node, r: nat := head, 0;
      for l := level downto 0
        invariant |update| == |rankAt| == MAX_LEVEL
        invariant r <= c && node == nodes[r] && l <= |node.forward|
        invariant PathTo(nodes, Forwards(nodes), update, rankAt, l, level, c)
        invariant l == 0 ==> r == rankAt[0] && NoTaller(Forwards(nodes), r + 1, c + 1, l)
      {
        node, r := Walk(node, r, l, key, c);
        PathStep(nodes, Forwards(nodes), update, rankAt, l, level, c, r);
        rankAt, update := rankAt[l := r], update[l := node];
      }
      Reached(r, c);
    }

    /** Open the levels a tall tower needs: the head alone spans each of them. */
    method Raise(levelCount: nat, update: seq<Node>, rankAt: seq<nat>, ghost c: nat)
        returns (update': seq<Node>, rankAt': seq<nat>)
      requires Structure() && level < levelCount <= MAX_LEVEL && c < |nodes|
      requires |update| == |rankAt| == MAX_LEVEL && PathTo(nodes, Forwards(nodes), update, rankAt, 0, level, c)
      modifies this`level, head`span
      ensures Structure() && level == levelCount
      ensures |update'| == |rankAt'| == MAX_LEVEL && PathTo(nodes, Forwards(nodes), update', rankAt', 0, level, c)
      ensures rankAt'[0] == rankAt[0]
    {
      hide WellLinked, PathTo;
      ghost var f, s := Forwards(nodes), Spans(nodes);
      update', rankAt' := update, rankAt;
      for l := level to levelCount
        invariant level == old(level)
        invariant |update'| == |rankAt'| == MAX_LEVEL == |head.span|
        invariant update'[..level] == update[..level] && rankAt'[..level] == rankAt[..level]
        invariant forall j :: level <= j < l ==> update'[j] == head && rankAt'[j] == 0 && head.span[j] == length
        invariant head.span[..level] == old(head.span[..level])
        invariant forall i :: 1 <= i < |nodes| ==> nodes[i].span == old(nodes[i].span)
      {
        rankAt', update' := rankAt'[l := 0], update'[l := head];
        head.span := head.span[l := length];
      }
      assert Forwards(nodes) == f && Spans(nodes)[1..] == s[1..];
      RaiseKeepsLinks(nodes, f, s, level, Spans(nodes), levelCount);
      RaisedPath(nodes, f, update, rankAt, level, c, update', rankAt', levelCount);
      level := levelCount;
    }

    /** One level of `Splice`: `u`, `distance` level-0 steps before the tower, hands over its
        pointer and now leads to the tower. */
    method SpliceLevel(tower: Node, u: Node, l: nat, distance: int, ghost r: nat)
      requires tower !in nodes && Distinct(nodes) && r < |nodes| && u == nodes[r]
      requires l < |tower.forward| == |tower.span| && l < |u.forward| == |u.span|
      modifies nodes`forward, nodes`span, tower`forward, tower`span
      ensures tower.forward == old(tower.forward)[l := old(Forwards(nodes)[r][l])]
      ensures tower.span == old(tower.span)[l := old(Spans(nodes)[r][l]) - distance]
      ensures Forwards(nodes) == old(Forwards(nodes)[r := Forwards(nodes)[r][l := tower]])
      ensures Spans(nodes) == old(Spans(nodes)[r := Spans(nodes)[r][l := distance + 1]])
    {
      tower.forward := tower.forward[l := u.forward[l]];
      u.forward := u.forward[l := tower];
      tower.span := tower.span[l := u.span[l] - distance];
      u.span := u.span[l := distance + 1];
    }

    /** Point the tower's levels at what its predecessors pointed at, and them at the tower. */
    method Splice(tower: Node, update: seq<Node>, rankAt: seq<nat>, ghost c: nat,
                  ghost f: seq<seq<Node?>>, ghost s: seq<seq<int>>)
      requires Distinct(nodes) && c < |nodes| && 1 <= |tower.forward| == |tower.span| <= level <= MAX_LEVEL
      requires f == Forwards(nodes) && s == Spans(nodes) && tower !in nodes
      requires SplicedUpTo(f, s, f, s, tower.forward, tower.span, rankAt, c, tower, 0)
      requires |update| == |rankAt| == MAX_LEVEL && rankAt[0] == c
      requires PathTo(nodes, f, update, rankAt, 0, level, c)
      modifies nodes`forward, nodes`span, tower`forward, tower`span
      ensures |tower.forward| == |tower.span| == old(|tower.forward|)
      ensures SplicedUpTo(f, s, Forwards(nodes), Spans(nodes), tower.forward, tower.span, rankAt, c, tower,
                          |tower.forward|)
    {
      hide SplicedUpTo, Forwards, Spans, Distinct;
      for l := 0 to |tower.forward|
        invariant |tower.forward| == |tower.span| == old(|tower.forward|)
        invariant SplicedUpTo(f, s, Forwards(nodes), Spans(nodes), tower.forward, tower.span, rankAt, c, tower, l)
      {
        SplicedUpToStep(f, s, Forwards(nodes), Spans(nodes), tower.forward, tower.span, rankAt, c, tower, l);
        SpliceLevel(tower, update[l], l, rankAt[0] - rankAt[l], rankAt[l]);
      }
    }

    /** One level of `Lengthen`. */
    method LengthenLevel(u: Node, l: nat, ghost r: nat)
      requires Distinct(nodes) && r < |nodes| && u == nodes[r] && l < |u.span|
      modifies u`span
      ensures Forwards(nodes) == old(Forwards(nodes))
      ensures Spans(nodes) == old(Spans(nodes)[r := Spans(nodes)[r][l := Spans(nodes)[r][l] + 1]])
    {
      u.span := u.span[l := u.span[l] + 1];
    }

    /** Towers that do not reach a level still lengthen the pointer that passes over them. */
    method Lengthen(update: seq<Node>, rankAt: seq<nat>, from: nat, ghost c: nat)
      requires |nodes| > 0 && Distinct(nodes) && c < |nodes| && from <= level <= MAX_LEVEL
      requires Shaped(nodes, Forwards(nodes), Spans(nodes))
      requires |update| == |rankAt| == MAX_LEVEL && PathTo(nodes, Forwards(nodes), update, rankAt, 0, level, c)
      modifies nodes`span
      ensures Lengthened(old(Spans(nodes)), Spans(nodes), rankAt, from, level) &&
              Forwards(nodes) == old(Forwards(nodes))
    {
      hide Lengthened, Distinct, Forwards, Spans;
      ghost var f, s := Forwards(nodes), Spans(nodes);
      NotYetLengthened(s, rankAt, from);
      for l := from to level
        invariant Forwards(nodes) == f
        invariant Lengthened(s, Spans(nodes), rankAt, from, l)
      {
        LengthenedStep(s, Spans(nodes), rankAt, from, l, l + 1);
        LengthenLevel(update[l], l, rankAt[l]);
      }
    }

    lemma SplicedTowers(f: seq<seq<Node?>>, s: seq<seq<int>>, rankAt: seq<nat>, c: nat, tower: Node)
      requires |f| == |nodes| > 0 && nodes[0] == head && Distinct(nodes) && 1 <= level <= MAX_LEVEL
      requires |f[0]| == MAX_LEVEL && forall l :: level <= l < MAX_LEVEL ==> f[0][l] == null
      requires forall i :: 1 <= i < |f| ==> 1 <= |f[i]| <= level
      requires |tower.forward| <= level
      requires SplicedUpTo(f, s, Forwards(nodes), Spans(nodes), tower.forward, tower.span, rankAt, c, tower,
                           |tower.forward|)
      ensures Towers()
    {
      assert forall i {:trigger nodes[i]} :: 0 <= i < |nodes| ==> nodes[i].forward == Forwards(nodes)[i];
    }

    /** Hang a new tower into the chain, between positions `c` and `c + 1`. */
    method Attach(tower: Node, update: seq<Node>, rankAt: seq<nat>, ghost c: nat)
      requires Structure() && c < |nodes| && 1 <= |tower.forward| == |tower.span| <= level && tower !in nodes
      requires |update| == |rankAt| == MAX_LEVEL && rankAt[0] == c
      requires PathTo(nodes, Forwards(nodes), update, rankAt, 0, level, c)
      modifies nodes`forward, nodes`span, tower`forward, tower`span
      ensures Towers() && |tower.forward| == old(|tower.forward|)
      ensures var ns := Insert(nodes, c, tower); WellLinked(ns, Forwards(ns), Spans(ns), level)
    {
      hide WellLinked, PathTo, Insert, Distinct, SplicedUpTo, Forwards, Spans, SameHeights, Lengthened;
      ghost var f, s := Forwards(nodes), Spans(nodes);
      HasShape(rankAt, c, tower);
      Splice(tower, update, rankAt, c, f, s);
      ghost var f1, s1, tf, ts := Forwards(nodes), Spans(nodes), tower.forward, tower.span;
      SplicedHeights(f, s, f1, s1, tf, ts, rankAt, c, tower, |tf|);
      SplicedTowers(f, s, rankAt, c, tower);
      SamePath(nodes, f, f1, update, rankAt, level, c);
      Lengthen(update, rankAt, |tower.forward|, c);
      LengthenedHeights(s1, Spans(nodes), rankAt, |tf|, level);
      SpliceKeepsLinks(nodes, f, s, update, rankAt, level, c, tower, tf, ts, f1, s1, Spans(nodes));
      InsertedFields(nodes, c, tower);
    }

    lemma NewTowerShape(c: nat, tower: Node)
      requires Towers() && c < |nodes| && tower !in nodes && 1 <= |tower.forward| <= level
      ensures var ns := Insert(nodes, c, tower);
        && |ns| == |nodes| + 1 && ns[0] == head && Distinct(ns)
        && (forall i :: 1 <= i < |ns| ==> 1 <= |ns[i].forward| <= level)
        && Entries(ns[1..]) == Contents()[..c] + [tower.entry] + Contents()[c..]
    {
    }

    /** Count the attached tower in. */
    method Grow(tower: Node, ghost c: nat)
      requires Towers() && length == |nodes| - 1 && c < |nodes| && tower !in nodes && 1 <= |tower.forward| <= level
      requires var ns := Insert(nodes, c, tower); WellLinked(ns, Forwards(ns), Spans(ns), level)
      modifies this`length, this`nodes
      ensures Structure()
      ensures Contents() == old(Contents()[..c] + [tower.entry] + Contents()[c..])
      ensures forall n :: n in nodes ==> n in old(nodes) || n == tower
    {
      hide WellLinked, Entries, Distinct;
      NewTowerShape(c, tower);
      length := length + 1;
      nodes := Insert(nodes, c, tower);
    }

    /** Insert an entry that is not on the board yet, with a tower of `levelCount` levels. */
    method Link(member: string, score: real, levelCount: nat, ghost c: nat)
      requires Structure() && Splits(Contents(), Entry(member, score), c) && c < |nodes|
      requires 1 <= levelCount <= MAX_LEVEL
      modifies this`level, this`length, this`nodes, nodes`forward, nodes`span
      ensures Structure()
      ensures Contents() == old(Contents()[..c] + [Entry(member, score)] + Contents()[c..])
      ensures forall n :: n in nodes ==> n in old(nodes) || fresh(n)
    {
      hide WellLinked, Before, Splits, PathTo, Distinct, Entries, Forwards, Spans, Insert;
      var key := Entry(member, score);
      var update, rankAt := Search(key, c);
      if levelCount > level {
        update, rankAt := Raise(levelCount, update, rankAt, c);
      }
      var tower := new Node(key, seq(levelCount, _ => null), seq(levelCount, _ => 0));
      Attach(tower, update, rankAt, c);
      Grow(tower, c);
    }

    lemma UpdatedAt(f: seq<seq<Node?>>, s: seq<seq<int>>, r: nat, t: nat)
      requires Distinct(nodes) && r < t < |nodes| && f == Forwards(nodes) && s == Spans(nodes)
      ensures nodes[r].forward == f[r] && nodes[r].span == s[r] && nodes[t].forward == f[t] && nodes[t].span == s[t]
      ensures forall i :: 0 <= i < |nodes| && i != r ==> nodes[i] != nodes[r]
    {
    }

    /** One level of `Bypass`: `u` either skips the target or is one step shorter above it. */
    method BypassLevel(target: Node, u: Node, l: nat, ghost r: nat, ghost t: nat,
                       ghost f: seq<seq<Node?>>, ghost s: seq<seq<int>>)
      requires Distinct(nodes) && r < t < |nodes| && u == nodes[r] && target == nodes[t]
      requires f == Forwards(nodes) && s == Spans(nodes)
      requires |f[t]| == |s[t]| && l < |f[r]| == |s[r]|
      requires f[r][l] == target <==> l < |f[t]|
      modifies u`forward, u`span
      ensures Forwards(nodes) == f[r := if l < |f[t]| then f[r][l := f[t][l]] else f[r]]
      ensures Spans(nodes) == s[r := s[r][l := s[r][l] - 1 + if l < |f[t]| then s[t][l] else 0]]
    {
      hide Distinct;
      UpdatedAt(f, s, r, t);
      ghost var fr := if l < |f[t]| then f[r][l := f[t][l]] else f[r];
      ghost var sr := s[r][l := s[r][l] - 1 + if l < |f[t]| then s[t][l] else 0];
      if u.forward[l] == target {
        u.span := u.span[l := u.span[l] + (target.span[l] - 1)];
        u.forward := u.forward[l := target.forward[l]];
      } else {
        u.span := u.span[l := u.span[l] - 1];
      }
      assert u.forward == fr && u.span == sr;
      assert Forwards(nodes) == f[r := fr] && Spans(nodes) == s[r := sr];
    }

    /** Lead every pointer of the search path past the target. */
    method Bypass(target: Node, update: seq<Node>, ghost rankAt: seq<nat>, ghost c: nat,
                  ghost f: seq<seq<Node?>>, ghost s: seq<seq<int>>)
      requires WellLinked(nodes, f, s, level) && Distinct(nodes) && c + 1 < |nodes| && target == nodes[c + 1]
      requires f == Forwards(nodes) && s == Spans(nodes) && level <= MAX_LEVEL
      requires BypassedUpTo(f, s, f, s, rankAt, c + 1, 0)
      requires |update| == |rankAt| == MAX_LEVEL && PathTo(nodes, f, update, rankAt, 0, level, c)
      modifies nodes`forward, nodes`span
      ensures BypassedUpTo(f, s, Forwards(nodes), Spans(nodes), rankAt, c + 1, level)
    {
      hide BypassedUpTo, Distinct, WellLinked, Forwards, Spans;
      for l := 0 to level
        invariant BypassedUpTo(f, s, Forwards(nodes), Spans(nodes), rankAt, c + 1, l)
      {
        BypassStep(f, s, Forwards(nodes), Spans(nodes), rankAt, c + 1, l);
        TargetOnPath(nodes, f, s, update, rankAt, level, c, l);
        BypassLevel(target, update[l], l, rankAt[l], c + 1, Forwards(nodes), Spans(nodes));
      }
    }

    /** Take the node `target`, at position `c + 1`, out of the chain. */
    method Detach(target: Node, update: seq<Node>, ghost rankAt: seq<nat>, ghost c: nat)
      requires Structure() && c + 1 < |nodes| && target == nodes[c + 1]
      requires |update| == |rankAt| == MAX_LEVEL && PathTo(nodes, Forwards(nodes), update, rankAt, 0, level, c)
      modifies nodes`forward, nodes`span
      ensures var ns := Drop(nodes, c + 1);
              && WellLinked(ns, Forwards(ns), Spans(ns), level)
              && |head.forward| == |head.span| == MAX_LEVEL
              && (forall l :: level <= l < MAX_LEVEL ==> head.forward[l] == null)
              && (forall i :: 1 <= i < |ns| ==> 1 <= |ns[i].forward| <= level)
    {
      hide WellLinked, PathTo, BypassedUpTo, Forwards, Spans, Drop;
      ghost var f, s := Forwards(nodes), Spans(nodes);
      BypassStart(rankAt, c + 1);
      Bypass(target, update, rankAt, c, f, s);
      DropKeepsLinks(nodes, f, s, update, rankAt, level, c, Forwards(nodes), Spans(nodes));
      DroppedFields(nodes, c + 1);
      BypassedTowers(f, s, rankAt, c + 1);
    }

    lemma BypassStart(rankAt: seq<nat>, t: nat)
      requires Structure() && t < |nodes|
      ensures BypassedUpTo(Forwards(nodes), Spans(nodes), Forwards(nodes), Spans(nodes), rankAt, t, 0)
    {
    }

    lemma BypassedTowers(f: seq<seq<Node?>>, s: seq<seq<int>>, rankAt: seq<nat>, t: nat)
      requires 0 < t < |f| == |nodes| && nodes[0] == head && 1 <= level <= MAX_LEVEL
      requires |f[0]| == MAX_LEVEL && forall l :: level <= l < MAX_LEVEL ==> f[0][l] == null
      requires forall i :: 1 <= i < |f| ==> 1 <= |f[i]| <= level
      requires BypassedUpTo(f, s, Forwards(nodes), Spans(nodes), rankAt, t, level)
      ensures |head.forward| == |head.span| == MAX_LEVEL
      ensures forall l :: level <= l < MAX_LEVEL ==> head.forward[l] == null
      ensures var ns := Drop(nodes, t); forall i :: 1 <= i < |ns| ==> 1 <= |ns[i].forward| <= level
    {
      assert forall i {:trigger nodes[i]} :: 0 <= i < |nodes| ==> nodes[i].forward == Forwards(nodes)[i];
    }

    /** Count the detached node out and close the levels it leaves empty. */
    method Shrink(ghost ns: seq<Node>, ghost t: nat)
      requires 1 <= t < |nodes| && ns == Drop(nodes, t) && length == |nodes| - 1
      requires nodes[0] == head && Distinct(nodes) && 1 <= level <= MAX_LEVEL
      requires WellLinked(ns, Forwards(ns), Spans(ns), level)
      requires |head.forward| == |head.span| == MAX_LEVEL
      requires forall l :: level <= l < MAX_LEVEL ==> head.forward[l] == null
      requires forall i :: 1 <= i < |ns| ==> 1 <= |ns[i].forward| <= level
      modifies this`level, this`length, this`nodes
      ensures Structure() && nodes == ns
    {
      hide WellLinked, Distinct, Drop, Forwards, Spans;
      DistinctDrop(nodes, t);
      ghost var f, s := Forwards(ns), Spans(ns);
      while level > 1 && head.forward[level - 1] == null
        invariant 1 <= level <= MAX_LEVEL
        invariant WellLinked(ns, f, s, level)
        invariant forall l :: level <= l < MAX_LEVEL ==> head.forward[l] == null
        invariant forall i :: 1 <= i < |f| ==> 1 <= |f[i]| <= level
        modifies this`level
      {
        EmptyTop(ns, f, s, level);
        level := level - 1;
      }
      length := length - 1;
      nodes := ns;
    }

    /** Remove an entry of the board; an entry that is not found leaves the chain alone. */
    method Unlink(member: string, score: real, ghost c: nat)
      requires Structure() && Splits(Contents(), Entry(member, score), c)
      requires c < |Contents()| && Contents()[c].member == member
      modifies this`level, this`length, this`nodes, nodes`forward, nodes`span
      ensures Structure()
      ensures Contents() == old(Contents()[..c] + Contents()[c + 1..])
      ensures forall n :: n in nodes ==> n in old(nodes)
    {
      hide WellLinked, Before, Splits, Forwards, Spans, PathTo, Drop, Distinct;
      var update, rankAt := Search(Entry(member, score), c);
      TargetFound(update, rankAt, c);
      var target := update[0].forward[0];
      if target == null || target.entry.member != member {
        return;
      }
      Detach(target, update, rankAt, c);
      DroppedContents(c + 1);
      Shrink(Drop(nodes, c + 1), c + 1);
    }

    lemma TargetFound(update: seq<Node>, rankAt: seq<nat>, c: nat)
      requires Structure() && |update| == |rankAt| == MAX_LEVEL && rankAt[0] == c && c + 1 < |nodes|
      requires PathTo(nodes, Forwards(nodes), update, rankAt, 0, level, c)
      ensures update[0] == nodes[c] && |nodes[c].forward| > 0 && nodes[c].forward[0] == nodes[c + 1]
      ensures nodes[c + 1].entry == Contents()[c]
    {
      TargetOnPath(nodes, Forwards(nodes), Spans(nodes), update, rankAt, level, c, 0);
    }

    lemma DroppedContents(t: nat)
      requires 1 <= t < |nodes|
      ensures |Drop(nodes, t)| == |nodes| - 1
      ensures Entries(Drop(nodes, t)[1..]) == Contents()[..t - 1] + Contents()[t..]
      ensures forall n :: n in Drop(nodes, t) ==> n in nodes
    {
    }

    // -------------------------------------------------------------- public operations

    function ScoreOf(member: string): (r: Result<real>)
      reads this
    {
      if member in scores then Ok(scores[member]) else NotFound
    }

    /** Insert a member or move it, whatever tower the coin flips give it. */
    method Add(member: string, score: real, levelCount: nat)
      requires Valid() && 1 <= levelCount <= MAX_LEVEL
      modifies this`level, this`length, this`nodes, this`scores, nodes`forward, nodes`span
      ensures Valid() && scores == old(scores)[member := score]
      ensures forall n :: n in nodes ==> n in old(nodes) || fresh(n)
    {
      hide Structure, IsBoard, Splits, Entries;
      ghost var board, table := Contents(), scores - {member};
      assert |nodes| > 0 && |board| == |nodes| - 1 by { NodeCount(); }
      if member in scores {
        var current := scores[member];
        if current == score {
          assert scores[member := score] == scores;
          return;
        }
        ghost var at := PositionOf(board, scores, member);
        BoardWithout(board, scores, member, at);
        board := board[..at] + board[at + 1..];
        Unlink(member, current, at);
      } else {
        assert table == scores;
      }
      NodeCount();
      assert forall i :: 0 <= i < |nodes| ==> nodes[i] in nodes && nodes[i] in old(nodes);
      ghost var c := CutOf(board, table, Entry(member, score));
      BoardWith(board, table, member, score, c);
      assert table[member := score] == scores[member := score];
      Link(member, score, levelCount, c);
      scores := scores[member := score];
    }

    lemma NodeCount()
      requires Structure()
      ensures |nodes| > 0 && |Contents()| == |nodes| - 1 == length
    {
    }

    method Remove(member: string) returns (found: bool)
      requires Valid()
      modifies this`level, this`length, this`nodes, this`scores, nodes`forward, nodes`span
      ensures Valid() && scores == old(scores) - {member} && found == (member in old(scores))
      ensures forall n :: n in nodes ==> n in old(nodes)
    {
      hide Structure, IsBoard, Splits, Entries;
      if member !in scores {
        assert scores - {member} == scores;
        return false;
      }
      NodeCount();
      var current := scores[member];
      ghost var at := PositionOf(Contents(), scores, member);
      BoardWithout(Contents(), scores, member, at);
      scores := scores - {member};
      Unlink(member, current, at);
      return true;
    }

    method Rank(member: string) returns (r: Result<nat>)
      requires Valid()
      ensures r.Ok? <==> member in scores
      ensures r.Ok? ==> r.value < |Contents()| && Contents()[r.value] == Entry(member, scores[member])
      ensures !r.Ok? ==> r.NotFound?
    {
      if member !in scores {
        return NotFound;
      }
      var score := scores[member];
      var traversed := CountAbove(score, member);
      ghost var at := PositionOf(Contents(), scores, member);
      SplitIsUnique(Contents(), Entry(member, score), at, traversed);
      return Ok(traversed);
    }

    /** Level 0 visits every node. */
    lemma NextOnBottom(i: nat)
      requires Structure() && i < |nodes|
      ensures |nodes[i].forward| > 0 && |nodes[i].span| > 0
      ensures i + 1 < |nodes| ==> nodes[i].forward[0] == nodes[i + 1] && nodes[i].span[0] == 1
      ensures i + 1 == |nodes| ==> nodes[i].forward[0] == null
    {
      assert Forwards(nodes)[i] == nodes[i].forward && Spans(nodes)[i] == nodes[i].span;
      assert LinkAt(nodes, Forwards(nodes), Spans(nodes), i, 0);
      if i + 1 < |nodes| {
        assert Forwards(nodes)[i + 1] == nodes[i + 1].forward;
      }
    }

    lemma FirstOnBottom()
      requires Structure()
      ensures |nodes| > 0 && |head.forward| > 0
      ensures head.forward[0] == if 1 < |nodes| then nodes[1] else null
    {
      NextOnBottom(0);
    }

    /** Copy up to `limit` entries, starting with the node at position `at`. */
    method Collect(start: Node?, ghost at: nat, limit: nat) returns (out: seq<Entry>)
      requires Structure() && 0 < at <= |nodes| && start == (if at < |nodes| then nodes[at] else null)
      ensures out == Slice(Contents(), at - 1, limit)
    {
      hide Structure, Contents;
      NodeCount();
      out := [];
      var cursor := start;
      ghost var i := at;
      SliceGrows(at - 1, 0);
      hide Slice;
      while cursor != null && |out| < limit
        invariant at <= i <= |nodes| && |out| == i - at <= limit
        invariant cursor == if i < |nodes| then nodes[i] else null
        invariant out == Slice(Contents(), at - 1, i - at)
      {
        NextOnBottom(i);
        SliceGrows(at - 1, i - at);
        out := out + [cursor.entry];
        cursor, i := cursor.forward[0], i + 1;
      }
      SliceGrows(at - 1, limit);
    }

    lemma SliceGrows(start: nat, count: nat)
      requires Structure() && start < |nodes|
      ensures Slice(Contents(), start, 0) == []
      ensures start + count + 1 < |nodes| ==>
                Slice(Contents(), start, count + 1) ==
                    Slice(Contents(), start, count) + [nodes[start + count + 1].entry]
      ensures forall k: nat :: start + k + 1 == |nodes| && k <= count ==>
                Slice(Contents(), start, count) == Slice(Contents(), start, k)
    {
      hide WellLinked, Towers;
      assert |Contents()| == |nodes| - 1;
      SliceStep(Contents(), start, count);
      assert start + count + 1 < |nodes| ==> Contents()[start + count] == nodes[start + count + 1].entry;
    }

    method Top(limit: int) returns (r: Result<seq<Entry>>)
      requires Valid()
      ensures r == if limit <= 0 then Invalid else Ok(Slice(Contents(), 0, limit))
    {
      hide Structure, IsBoard, Slice, Contents;
      if limit <= 0 {
        return Invalid;
      }
      FirstOnBottom();
      var out := Collect(head.forward[0], 1, limit);
      return Ok(out);
    }

    /** The inner loop of `Page`: along level `l`, up to the node at `target` or the last before it. */
    method WalkTo(start: Node, from: nat, l: nat, target: nat) returns (node: Node, at: nat)
      requires Structure() && from < |nodes| && from <= target && start == nodes[from] && l < level &&
               l < |start.forward|
      ensures at < |nodes| && at <= target && node == nodes[at] && l < |node.forward|
      ensures l == 0 ==> at == target || at == |nodes| - 1
    {
      hide WellLinked;
      node, at := start, from;
      var nxt := node.forward[l];
      Stride(at, l);
      while nxt != null && at + node.span[l] <= target
        invariant at < |nodes| && at <= target && node == nodes[at] && l < |node.forward| == |node.span|
        invariant nxt == node.forward[l]
        decreases target - at
      {
        Stride(at, l);
        at := at + node.span[l];
        node := nxt;
        nxt := node.forward[l];
        Stride(at, l);
      }
      NextOnBottom(at);
    }

    lemma Stride(i: nat, l: nat)
      requires Structure() && i < |nodes| && l < level && l < |nodes[i].forward|
      ensures |nodes[i].span| == |nodes[i].forward|
      ensures var nxt, q := nodes[i].forward[l], i + nodes[i].span[l];
              nxt != null ==> i < q < |nodes| && nodes[q] == nxt && l < |nxt.forward|
    {
      assert Forwards(nodes)[i] == nodes[i].forward && Spans(nodes)[i] == nodes[i].span;
      assert LinkAt(nodes, Forwards(nodes), Spans(nodes), i, l);
      assert forall j {:trigger nodes[j]} :: 0 <= j < |nodes| ==> nodes[j].forward == Forwards(nodes)[j];
    }

    method Page(start: int, count: int) returns (r: Result<seq<Entry>>)
      requires Valid()
      ensures r == if start < 0 || count <= 0 then Invalid else Ok(Slice(Contents(), start, count))
    {
      hide WellLinked, IsBoard;
      if start < 0 || count <= 0 {
        return Invalid;
      }
      var target := start + 1;
      var node, traversed: nat := head, 0;
      for l := level downto 0
        invariant traversed < |nodes| && traversed <= target && node == nodes[traversed] && l <= |node.forward|
        invariant l == 0 ==> traversed == target || traversed == |nodes| - 1
      {
        node, traversed := WalkTo(node, traversed, l, target);
      }
      if traversed != target {
        return Ok([]);
      }
      NodeCount();
      var out := Collect(node, target, count);
      return Ok(out);
    }
  }
}
