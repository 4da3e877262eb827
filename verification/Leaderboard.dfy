/** The sharded leaderboard: scatter-gather reads over one sorted set per shard. */
module Leaderboard {
  import opened SkipList

  datatype RankedEntry = RankedEntry(rank: int, member: string, score: real)

  // ---------------------------------------------------------------- boards as sequences

  function Concat(pages: seq<seq<Entry>>): (s: seq<Entry>)
    ensures forall e :: e in s <==> exists i :: 0 <= i < |pages| && e in pages[i]
  {
    if pages == [] then [] else
      var n := |pages| - 1;
      assert forall i {:trigger pages[i]} :: 0 <= i < n ==> pages[..n][i] == pages[i];
      Concat(pages[..n]) + pages[n]
  }

  /** The rows within `radius` places of position `k`, numbered by their place on the board. */
  function Around(board: seq<Entry>, k: nat, radius: nat): seq<RankedEntry> {
    Ranked(Slice(board, Back(k, radius), k + radius + 1 - Back(k, radius)), Back(k, radius))
  }

  /** Rows of a rendered board, numbered from `first`. */
  function Ranked(s: seq<Entry>, first: int): (r: seq<RankedEntry>)
    ensures |r| == |s|
  {
    seq(|s|, i requires 0 <= i < |s| => RankedEntry(first + i, s[i].member, s[i].score))
  }

  ghost predicate Within(w: seq<Entry>, board: seq<Entry>) {
    forall e :: e in w ==> e in board
  }

  /** The board of a score table; `BoardIsUnique` says there is no other. */
  ghost function BoardOf(scores: map<string, real>): (board: seq<Entry>)
    ensures IsBoard(board, scores)
    decreases |scores|
  {
    if scores == map[] then [] else
      var m :| m in scores;
      var rest := BoardOf(scores - {m});
      var e := Entry(m, scores[m]);
      var c := Cut(rest, e);
      BoardWith(rest, scores - {m}, m, scores[m], c);
      assert (scores - {m})[m := scores[m]] == scores;
      rest[..c] + [e] + rest[c..]
  }

  /** A sorted sample of the board that contains a stretch of it shows that stretch contiguously. */
  lemma WindowAgrees(w: seq<Entry>, board: seq<Entry>, a: nat, b: nat) returns (off: nat)
    requires Sorted(w) && Sorted(board) && Within(w, board)
    requires a < b <= |board| && forall j :: a <= j < b ==> board[j] in w
    ensures off + (b - a) <= |w| && w[off..off + (b - a)] == board[a..b]
    ensures a == 0 ==> off == 0
    ensures b == |board| ==> off + (b - a) == |w|
  {
    hide Before;
    assert board[a] in w;
    off :| off < |w| && w[off] == board[a];
    WindowStep(w, board, a, b, off);
    if a == 0 && off > 0 {
      OrderAgrees(w, board, 0, off);
    }
    var n := off + (b - a);
    assert w[n - 1] == w[off..n][b - a - 1] == board[a..b][b - a - 1] == board[b - 1];
    if b == |board| && n < |w| {
      OrderAgrees(w, board, n - 1, n);
    }
  }

  /** Two entries in list order are in board order. */
  lemma OrderAgrees(w: seq<Entry>, board: seq<Entry>, x: nat, y: nat)
    requires Sorted(w) && Sorted(board) && Within(w, board) && x < y < |w|
    ensures exists p, q :: 0 <= p < q < |board| && board[p] == w[x] && board[q] == w[y]
    ensures forall p, q :: 0 <= p < |board| && 0 <= q < |board| && board[p] == w[x] && board[q] == w[y] ==> p < q
  {
    assert w[x] in board && w[y] in board;
    forall p, q | 0 <= p < |board| && 0 <= q < |board| && board[p] == w[x] && board[q] == w[y] ensures p < q {
      BeforeIrreflexive(w[x]);
      if q < p {
        BeforeTransitive(w[x], w[y], w[x]);
      }
    }
  }

  lemma {:induction false} WindowStep(w: seq<Entry>, board: seq<Entry>, a: nat, b: nat, off: nat)
    requires Sorted(w) && Sorted(board) && Within(w, board)
    requires a < b <= |board| && forall j :: a <= j < b ==> board[j] in w
    requires off < |w| && w[off] == board[a]
    ensures off + (b - a) <= |w| && w[off..off + (b - a)] == board[a..b]
    decreases b
  {
    hide *;
    if a + 1 < b {
      WindowStep(w, board, a, b - 1, off);
      var n := off + (b - 1 - a);
      assert w[n - 1] == w[off..n][b - 2 - a] == board[a..b - 1][b - 2 - a] == board[b - 2];
      assert board[b - 1] in w;
      NextInWindow(w, board, b - 1, n);
      assert board[a..b] == board[a..b - 1] + [board[b - 1]];
      assert w[off..n + 1] == w[off..n] + [w[n]];
    }
  }

  lemma NextInWindow(w: seq<Entry>, board: seq<Entry>, j: nat, n: nat)
    requires Sorted(w) && Sorted(board) && Within(w, board)
    requires 0 < j < |board| && 0 < n <= |w| && w[n - 1] == board[j - 1] && board[j] in w
    ensures n < |w| && w[n] == board[j]
  {
    hide Before;
    var p :| 0 <= p < |w| && w[p] == board[j];
    BeforeIrreflexive(board[j]);
    if p < n - 1 {
      OrderAgrees(w, board, p, n - 1);
    } else if p > n {
      OrderAgrees(w, board, n - 1, n);
      OrderAgrees(w, board, n, p);
    }
  }

  // ---------------------------------------------------------------- scatter and gather

  /** `heapq.merge` of two sorted lists; on ties the first list goes first. */
  function Merge(a: seq<Entry>, b: seq<Entry>): (m: seq<Entry>)
    ensures forall e :: e in m <==> e in a || e in b
    decreases |a| + |b|
  {
    if a == [] then b
    else if b == [] then a
    else if Before(b[0], a[0]) then
      assert b == [b[0]] + b[1..];
      [b[0]] + Merge(a, b[1..])
    else
      assert a == [a[0]] + a[1..];
      [a[0]] + Merge(a[1..], b)
  }

  lemma {:induction false} MergeIsSorted(a: seq<Entry>, b: seq<Entry>)
    requires Sorted(a) && Sorted(b) && forall e :: e in a ==> e !in b
    ensures Sorted(Merge(a, b))
    decreases |a| + |b|
  {
    hide Before;
    if a != [] && b != [] {
      if Before(b[0], a[0]) {
        MergeIsSorted(a, b[1..]);
        ConsIsSorted(b[0], Merge(a, b[1..]), a, b[1..]);
      } else {
        BeforeTotal(a[0], b[0]);
        assert a[0] in a && b[0] in b;
        MergeIsSorted(a[1..], b);
        ConsIsSorted(a[0], Merge(a[1..], b), b, a[1..]);
      }
    }
  }

  lemma ConsIsSorted(e: Entry, m: seq<Entry>, a: seq<Entry>, b: seq<Entry>)
    requires Sorted(m) && Sorted(a) && a != [] && Before(e, a[0])
    requires forall x :: x in m ==> x in a || x in b
    requires forall x :: x in b ==> Before(e, x)
    ensures Sorted([e] + m)
  {
    forall j | 0 <= j < |m| ensures Before(e, m[j]) {
      assert m[j] in m;
      if m[j] in a && m[j] != a[0] {
        BeforeTransitive(e, a[0], m[j]);
      }
    }
  }

  /** `heapq.merge` of any number of sorted lists. */
  function MergeAll(pages: seq<seq<Entry>>): (m: seq<Entry>)
    ensures forall e :: e in m <==> exists i :: 0 <= i < |pages| && e in pages[i]
  {
    if pages == [] then [] else
      var n := |pages| - 1;
      assert forall i {:trigger pages[i]} :: 0 <= i < n ==> pages[..n][i] == pages[i];
      Merge(MergeAll(pages[..n]), pages[n])
  }

  lemma {:induction false} MergeAllIsSorted(pages: seq<seq<Entry>>)
    requires forall i :: 0 <= i < |pages| ==> Sorted(pages[i])
    requires forall i, j, e :: 0 <= i < j < |pages| && e in pages[i] ==> e !in pages[j]
    ensures Sorted(MergeAll(pages))
  {
    hide Merge;
    if pages != [] {
      var n := |pages| - 1;
      MergeAllIsSorted(pages[..n]);
      assert forall e :: e in MergeAll(pages[..n]) ==> exists i :: 0 <= i < n && e in pages[i];
      MergeIsSorted(MergeAll(pages[..n]), pages[n]);
    }
  }

  /** `list.sort` with the board's key. */
  function SortEntries(s: seq<Entry>): (r: seq<Entry>)
    ensures forall e :: e in r <==> e in s
  {
    if s == [] then [] else
      assert s == [s[0]] + s[1..];
      Merge([s[0]], SortEntries(s[1..]))
  }

  lemma {:induction false} SortEntriesSorts(s: seq<Entry>)
    requires Apart(s)
    ensures Sorted(SortEntries(s))
  {
    if s != [] {
      SortEntriesSorts(s[1..]);
      MergeIsSorted([s[0]], SortEntries(s[1..]));
    }
  }

  /** `parts` deals the board out by the home of each member. */
  ghost predicate Dealt(board: seq<Entry>, parts: seq<seq<Entry>>, home: string -> nat) {
    && Sorted(board)
    && (forall e :: e in board ==> home(e.member) < |parts|)
    && (forall i :: 0 <= i < |parts| ==> Sorted(parts[i]))
    && (forall i, e :: 0 <= i < |parts| ==> (e in parts[i] <==> e in board && home(e.member) == i))
  }

  /** Steps inside a shard are never longer than the global distance they cover. */
  lemma {:induction false} LocalDistance(part: seq<Entry>, board: seq<Entry>, x: nat, y: nat, p: nat, q: nat)
    requires Sorted(part) && Sorted(board) && Within(part, board)
    requires x <= y < |part| && p < |board| && q < |board| && board[p] == part[x] && board[q] == part[y]
    ensures q - p >= y - x
  {
    hide Before;
    if x < y {
      assert part[y - 1] in board;
      var r :| 0 <= r < |board| && board[r] == part[y - 1];
      LocalDistance(part, board, x, y - 1, p, r);
      OrderAgrees(part, board, y - 1, y);
    } else if p < q {
      BeforeIrreflexive(board[p]);
    } else if q < p {
      BeforeIrreflexive(board[q]);
    }
  }

  /** An entry among the first `k` of the board is among the first `k` of its shard. */
  lemma TopIsLocal(board: seq<Entry>, part: seq<Entry>, j: nat, k: nat)
    requires Sorted(board) && Sorted(part) && Within(part, board)
    requires j < k && j < |board| && board[j] in part
    ensures board[j] in Slice(part, 0, k)
  {
    var x :| 0 <= x < |part| && part[x] == board[j];
    assert part[0] in board;
    var p :| 0 <= p < |board| && board[p] == part[0];
    LocalDistance(part, board, 0, x, p, j);
    assert Slice(part, 0, k)[x] == board[j];
  }

  lemma InSlice(part: seq<Entry>, from: nat, count: nat, x: nat)
    requires from <= x < from + count && x < |part|
    ensures part[x] in Slice(part, from, count)
  {
    assert Slice(part, from, count)[x - from] == part[x];
  }

  /** Where `board[j]` sits in its shard, measured from the shard's split point for `board[k]`. */
  lemma LocalOffset(board: seq<Entry>, part: seq<Entry>, k: nat, j: nat, local: nat, x: nat)
    requires Sorted(board) && Sorted(part) && Within(part, board)
    requires k < |board| && j < |board| && x < |part| && part[x] == board[j]
    requires Splits(part, board[k], local)
    ensures if j < k then x < local && local - x <= k - j else x >= local && x - local <= j - k
  {
    hide Before;
    BeforeMeansEarlier(board, j, k);
    assert Before(part[x], board[k]) <==> x < local;
    var edge := if j < k then local - 1 else local;
    assert part[edge] in board;
    var p :| 0 <= p < |board| && board[p] == part[edge];
    BeforeMeansEarlier(board, p, k);
    if j < k {
      LocalDistance(part, board, x, edge, j, p);
    } else {
      LocalDistance(part, board, edge, x, p, j);
    }
  }

  /** An entry within `r` places of position `k` lies in its shard's window of `2r + 1` entries
      around the local split point. */
  lemma NeighbourIsLocal(board: seq<Entry>, part: seq<Entry>, k: nat, j: nat, r: nat, local: nat)
    requires Sorted(board) && Sorted(part) && Within(part, board)
    requires k < |board| && j < |board| && k - r <= j <= k + r && board[j] in part
    requires Splits(part, board[k], local)
    ensures board[j] in Slice(part, if local > r then local - r else 0, 2 * r + 1)
  {
    hide *;
    var x :| 0 <= x < |part| && part[x] == board[j];
    LocalOffset(board, part, k, j, local, x);
    InSlice(part, if local > r then local - r else 0, 2 * r + 1, x);
  }

  lemma BeforeMeansEarlier(board: seq<Entry>, p: nat, k: nat)
    requires Sorted(board) && p < |board| && k < |board|
    ensures Before(board[p], board[k]) <==> p < k
  {
    hide Before;
    BeforeIrreflexive(board[k]);
    if k < p && Before(board[p], board[k]) {
      BeforeTransitive(board[k], board[p], board[k]);
    }
  }

  /** The first `k` of a sorted sample that contains the board's first `k` are the board's. */
  lemma TopAgrees(board: seq<Entry>, w: seq<Entry>, k: nat)
    requires Sorted(w) && Sorted(board) && Within(w, board) && k > 0
    requires forall j :: 0 <= j < k && j < |board| ==> board[j] in w
    ensures Slice(w, 0, k) == Slice(board, 0, k)
  {
    if board == [] {
      HeadIsMember(w);
    } else {
      var b := if k < |board| then k else |board|;
      var off := WindowAgrees(w, board, 0, b);
    }
  }

  // ---------------------------------------------------------------- global rank as a sum

  ghost function Ahead(part: seq<Entry>, c: nat): (s: set<Entry>)
    requires c <= |part|
  {
    set e | e in part[..c]
  }

  lemma {:induction false} AheadCount(part: seq<Entry>, c: nat)
    requires Sorted(part) && c <= |part|
    ensures |Ahead(part, c)| == c
  {
    if c > 0 {
      AheadCount(part, c - 1);
      assert part[..c] == part[..c - 1] + [part[c - 1]];
      assert Ahead(part, c) == Ahead(part, c - 1) + {part[c - 1]};
      BeforeIrreflexive(part[c - 1]);
      forall i | 0 <= i < c - 1 ensures part[i] != part[c - 1] {
      }
    }
  }

  lemma AheadMembers(part: seq<Entry>, probe: Entry, c: nat)
    requires Splits(part, probe, c)
    ensures c <= |part|
    ensures forall e :: e in Ahead(part, c) <==> e in part && Before(e, probe)
  {
    hide Before;
    forall e ensures e in Ahead(part, c) <==> e in part && Before(e, probe) {
      if e in part && Before(e, probe) {
        var i :| 0 <= i < |part| && part[i] == e;
        assert i < c && part[..c][i] == e;
      }
    }
  }

  // ---------------------------------------------------------------- the sharded board

  class ShardedLeaderboard {
    const shards: seq<SortedSet>
    const hash: string -> nat  // CRC-32 of the member id
    const maxScore: real
    ghost var scores: map<string, real>  // the whole board's score table
    ghost var repr: set<Node>  // the nodes of all shards

    function ShardFor(member: string): nat
      requires |shards| > 0
    {
      hash(member) % |shards|
    }

    ghost function Home(): (home: string -> nat)
      ensures |shards| > 0 ==> forall m :: home(m) == ShardFor(m)
    {
      m => if |shards| > 0 then ShardFor(m) else 0
    }

    ghost predicate Apart()
      reads shards
    {
      forall i, j :: 0 <= i < j < |shards| ==>
        shards[i] != shards[j] && forall n :: n in shards[i].nodes ==> n !in shards[j].nodes
    }

    /** Every member is filed on its own shard, and nowhere else. */
    ghost predicate Placed()
      requires |shards| > 0
      reads this, shards
    {
      forall i, m :: 0 <= i < |shards| ==>
        (m in shards[i].scores <==> m in scores && ShardFor(m) == i)
        && (m in shards[i].scores ==> shards[i].scores[m] == scores[m])
    }

    ghost predicate Valid()
      reads this, shards, repr
    {
      && |shards| > 0 && Apart() && Placed()
      && forall i :: 0 <= i < |shards| ==> (forall n :: n in shards[i].nodes ==> n in repr) && shards[i].Valid()
    }

    /** The whole board, best first. */
    ghost function Board(): seq<Entry>
      reads this
    {
      BoardOf(scores)
    }

    ghost function Parts(): (parts: seq<seq<Entry>>)
      reads shards
      ensures |parts| == |shards| && forall i :: 0 <= i < |shards| ==> parts[i] == shards[i].Contents()
    {
      seq(|shards|, i requires 0 <= i < |shards| reads shards => shards[i].Contents())
    }

    lemma ShardsDealTheBoard()
      requires Valid()
      ensures Dealt(Board(), Parts(), Home())
    {
      hide SortedSet.Structure, Before;
      forall i, e | 0 <= i < |shards| ensures e in Parts()[i] <==> e in Board() && ShardFor(e.member) == i {
        assert shards[i].Valid();
      }
      forall i | 0 <= i < |shards| ensures Sorted(Parts()[i]) {
        assert shards[i].Valid();
      }
    }

    constructor (count: nat, hash: string -> nat, maxScore: real)
      requires count > 0
      ensures Valid() && scores == map[] && |shards| == count && this.hash == hash && this.maxScore == maxScore
    {
      hide SortedSet.Valid, SortedSet.Contents;
      var sets: seq<SortedSet> := [];
      for i := 0 to count
        invariant |sets| == i
        invariant forall k :: 0 <= k < i ==>
                    fresh(sets[k]) && fresh(sets[k].nodes) && sets[k].Valid() && sets[k].scores == map[]
        invariant forall j, k :: 0 <= j < k < i ==>
                    sets[j] != sets[k] && forall n :: n in sets[j].nodes ==> n !in sets[k].nodes
      {
        var one := new SortedSet();
        sets := sets + [one];
      }
      shards, this.hash, this.maxScore, scores := sets, hash, maxScore, map[];
      repr := set s, n | s in sets && n in s.nodes :: n;
    }

    lemma Elsewhere(index: nat)
      requires Valid() && index < |shards|
      ensures shards[index].Valid()
      ensures forall i :: 0 <= i < |shards| && i != index ==> shards[i].Valid() && shards[i] != shards[index]
      ensures forall i, n :: 0 <= i < |shards| && i != index && n in shards[i].nodes ==> n !in shards[index].nodes
    {
    }

    /** A write touches one shard and leaves every other one as it was. */
    method AddTo(index: nat, member: string, score: real, levelCount: nat)
      requires Valid() && index < |shards| && 1 <= levelCount <= MAX_LEVEL
      modifies shards[index], shards[index].nodes
      ensures forall i :: 0 <= i < |shards| ==> shards[i].Valid()
      ensures Apart() && shards[index].scores == old(shards[index].scores)[member := score]
      ensures forall i :: 0 <= i < |shards| && i != index ==>
                shards[i].scores == old(shards[i].scores) && shards[i].nodes == old(shards[i].nodes)
    {
      hide SortedSet.Valid;
      Elsewhere(index);
      shards[index].Add(member, score, levelCount);
      assert forall i :: 0 <= i < |shards| && i != index ==> shards[i].nodes == old(shards[i].nodes);
      assert forall i, n :: 0 <= i < |shards| && i != index && n in shards[i].nodes ==>
               n.forward == old(n.forward) && n.span == old(n.span);
    }

    /** Record a score and return the stored value; `levelCount` is the tower the coin flips give. */
    method Submit(member: string, score: real, bestOnly: bool, levelCount: nat) returns (r: Result<real>)
      requires Valid() && 1 <= levelCount <= MAX_LEVEL
      modifies this`scores, this`repr, shards[ShardFor(member)], shards[ShardFor(member)].nodes
      ensures Valid()
      ensures var rejected := member == "" || score < 0.0 || score > maxScore;
              var kept := bestOnly && member in old(scores) && old(scores)[member] >= score;
              && r == (if rejected then Invalid else Ok(if kept then old(scores)[member] else score))
              && scores == (if rejected || kept then old(scores) else old(scores)[member := score])
    {
      hide SortedSet.Valid;
      if member == "" || score < 0.0 || score > maxScore {
        return Invalid;
      }
      var index := ShardFor(member);
      var current := shards[index].ScoreOf(member);
      if bestOnly && current.Ok? && current.value >= score {
        return Ok(current.value);
      }
      AddTo(index, member, score, levelCount);
      repr := repr + (set n | n in shards[index].nodes);
      scores := scores[member := score];
      return Ok(score);
    }

    method Top(limit: int) returns (r: Result<seq<RankedEntry>>)
      requires Valid()
      ensures r == if limit <= 0 then Invalid else Ok(Ranked(Slice(Board(), 0, limit), 0))
    {
      hide *;
      if limit <= 0 {
        return Invalid;
      }
      var pages: seq<seq<Entry>> := [];
      for index := 0 to |shards|
        invariant |pages| == index && forall i :: 0 <= i < index ==> pages[i] == Slice(Parts()[i], 0, limit)
      {
        ShardIsValid(index);
        var page := shards[index].Top(limit);
        pages := pages + [page.value];
      }
      ShardsDealTheBoard();
      MergedTops(Board(), Parts(), Home(), pages, limit);
      return Ok(Ranked(Slice(MergeAll(pages), 0, limit), 0));
    }

    function ScoreOf(member: string): (r: Result<real>)
      requires Valid()
      reads this, shards, repr
    {
      shards[ShardFor(member)].ScoreOf(member)
    }

    lemma OnBoard(member: string) returns (k: nat)
      requires Valid() && ScoreOf(member).Ok?
      ensures member in scores && ScoreOf(member).value == scores[member]
      ensures k < |Board()| && Board()[k] == Entry(member, scores[member]) && Splits(Board(), Board()[k], k)
    {
      hide SortedSet.Valid, Before;
      k := PositionOf(Board(), scores, member);
    }

    method Rank(member: string) returns (r: Result<nat>)
      requires Valid()
      ensures if member in scores then
                r.Ok? && r.value < |Board()| && Board()[r.value] == Entry(member, scores[member])
              else
                r.NotFound?
    {
      hide *;
      LookedUp(member);
      var found := ScoreOf(member);
      if !found.Ok? {
        return NotFound;
      }
      var score, total := found.value, 0;
      ghost var k := OnBoard(member);
      ghost var probe, board, parts, home := Entry(member, score), Board(), Parts(), Home();
      ShardsDealTheBoard();
      RankStart(board, home, probe);
      for index := 0 to |shards|
        invariant total == |AheadOn(board, home, index, probe)|
      {
        ShardIsValid(index);
        var above := shards[index].CountAbove(score, member);
        RankStep(board, parts, home, probe, index, above);
        total := total + above;
      }
      RankEnd(board, parts, home, probe, k);
      return Ok(total);
    }

    method Neighbours(member: string, radius: int) returns (r: Result<seq<RankedEntry>>)
      requires Valid()
      ensures radius < 0 ==> r.Invalid?
      ensures radius >= 0 && member !in scores ==> r.NotFound?
      ensures radius >= 0 && member in scores ==>
                exists k: nat :: k < |Board()| && Board()[k] == Entry(member, scores[member]) &&
                  r == Ok(Around(Board(), k, radius))
    {
      hide *;
      if radius < 0 {
        return Invalid;
      }
      LookedUp(member);
      var found := ScoreOf(member);
      if !found.Ok? {
        return NotFound;
      }
      var score := found.value;
      ghost var k := OnBoard(member);
      ghost var parts, probe := Parts(), Entry(member, score);
      var pages: seq<seq<Entry>> := [];
      ghost var cuts: seq<nat> := [];
      for index := 0 to |shards|
        invariant |pages| == |cuts| == index
        invariant forall i :: 0 <= i < index ==> Splits(parts[i], probe, cuts[i])
        invariant forall i :: 0 <= i < index ==> pages[i] == Slice(parts[i], Back(cuts[i], radius), 2 * radius + 1)
      {
        ShardIsValid(index);
        var local := shards[index].CountAbove(score, member);
        var page := shards[index].Page(Back(local, radius), 2 * radius + 1);
        pages, cuts := pages + [page.value], cuts + [local];
      }
      var window := SortEntries(Concat(pages));
      ShardsDealTheBoard();
      OneEntryEach(k);
      WindowsCover(Board(), parts, Home(), k, radius, cuts, pages);
      Bracket(Board(), window, k, radius);
      var centre := IndexOf(window, member);
      var low := Back(centre, radius);
      var rank := Rank(member);
      return Ok(Ranked(Slice(window, low, centre + radius + 1 - low), rank.value - (centre - low)));
    }

    lemma OneEntryEach(k: nat)
      requires Valid() && k < |Board()|
      ensures Sorted(Board())
      ensures forall e :: e in Board() && e.member == Board()[k].member ==> e == Board()[k]
      ensures forall j :: 0 <= j < |Board()| && Board()[j] == Board()[k] ==> j == k
    {
      hide Before;
      assert Board()[k] in Board();
      BeforeIrreflexive(Board()[k]);
    }

    lemma LookedUp(member: string)
      requires Valid()
      ensures ScoreOf(member).Ok? <==> member in scores
    {
      hide SortedSet.Valid;
    }

    lemma ShardIsValid(index: nat)
      requires Valid() && index < |shards|
      ensures shards[index].Valid() && Parts()[index] == shards[index].Contents()
    {
    }
  }

  /** The entries of the first `n` shards that sort before `probe`. */
  ghost function AheadOn(board: seq<Entry>, home: string -> nat, n: nat, probe: Entry): set<Entry> {
    set e | e in board && home(e.member) < n && Before(e, probe)
  }

  lemma RankStart(board: seq<Entry>, home: string -> nat, probe: Entry)
    ensures |AheadOn(board, home, 0, probe)| == 0
  {
  }

  lemma AheadSplit(board: seq<Entry>, parts: seq<seq<Entry>>, home: string -> nat, probe: Entry, n: nat, cut: nat)
    requires Dealt(board, parts, home) && n < |parts| && Splits(parts[n], probe, cut)
    ensures AheadOn(board, home, n, probe) !! Ahead(parts[n], cut)
    ensures AheadOn(board, home, n + 1, probe) == AheadOn(board, home, n, probe) + Ahead(parts[n], cut)
  {
    hide Before, Splits, Ahead;
    AheadMembers(parts[n], probe, cut);
  }

  lemma RankStep(board: seq<Entry>, parts: seq<seq<Entry>>, home: string -> nat, probe: Entry, n: nat, cut: nat)
    requires Dealt(board, parts, home) && n < |parts| && Splits(parts[n], probe, cut)
    ensures |AheadOn(board, home, n + 1, probe)| == |AheadOn(board, home, n, probe)| + cut
  {
    hide Before, Splits, Ahead;
    AheadMembers(parts[n], probe, cut);
    AheadCount(parts[n], cut);
    AheadSplit(board, parts, home, probe, n, cut);
    hide *;
    AddApart(AheadOn(board, home, n, probe), Ahead(parts[n], cut));
  }

  /** The shards' counts add up to the position on the whole board. */
  lemma RankEnd(board: seq<Entry>, parts: seq<seq<Entry>>, home: string -> nat, probe: Entry, k: nat)
    requires Dealt(board, parts, home) && Splits(board, probe, k)
    ensures |AheadOn(board, home, |parts|, probe)| == k
  {
    hide Before, Ahead;
    AheadMembers(board, probe, k);
    AheadCount(board, k);
    assert AheadOn(board, home, |parts|, probe) == Ahead(board, k);
  }

  ghost predicate Apart(s: seq<Entry>) {
    forall i, j :: 0 <= i < j < |s| ==> s[i] != s[j]
  }

  lemma {:induction false} ConcatApart(pages: seq<seq<Entry>>)
    requires forall i :: 0 <= i < |pages| ==> Sorted(pages[i])
    requires forall i, j, e :: 0 <= i < j < |pages| && e in pages[i] ==> e !in pages[j]
    ensures Apart(Concat(pages))
  {
    hide Before;
    if pages != [] {
      var n := |pages| - 1;
      ConcatApart(pages[..n]);
      var front, last := Concat(pages[..n]), pages[n];
      assert forall e :: e in front ==> exists i :: 0 <= i < n && e in pages[i];
      assert Apart(last) by {
        forall i, j | 0 <= i < j < |last| ensures last[i] != last[j] { BeforeIrreflexive(last[i]); }
      }
      forall i, j | 0 <= i < j < |front + last| ensures (front + last)[i] != (front + last)[j] {
        if i < |front| <= j {
          assert front[i] in front && last[j - |front|] in last;
        }
      }
    }
  }

  /** One window per shard around the local split point shows every global neighbour. */
  lemma WindowsCover(board: seq<Entry>, parts: seq<seq<Entry>>, home: string -> nat, k: nat, radius: nat,
                     cuts: seq<nat>, pages: seq<seq<Entry>>)
    requires Dealt(board, parts, home) && k < |board| && |pages| == |cuts| == |parts|
    requires forall i :: 0 <= i < |parts| ==> Splits(parts[i], board[k], cuts[i])
    requires forall i :: 0 <= i < |parts| ==> pages[i] == Slice(parts[i], Back(cuts[i], radius), 2 * radius + 1)
    ensures var w := SortEntries(Concat(pages));
            && Sorted(w) && Within(w, board)
            && forall j :: 0 <= j < |board| && k - radius <= j <= k + radius ==> board[j] in w
  {
    hide Before, Splits, Slice, SortEntries;
    PagesOfParts(board, parts, home, seq(|parts|, i requires 0 <= i < |parts| => Back(cuts[i], radius)), 2 * radius + 1,
                 pages);
    ConcatApart(pages);
    SortEntriesSorts(Concat(pages));
    forall j | 0 <= j < |board| && k - radius <= j <= k + radius ensures board[j] in Concat(pages) {
      var i := home(board[j].member);
      assert board[j] in parts[i];
      NeighbourIsLocal(board, parts[i], k, j, radius, cuts[i]);
      assert board[j] in pages[i];
    }
  }

  /** Slicing the merged windows around the member gives the board's own stretch around it. */
  lemma Bracket(board: seq<Entry>, w: seq<Entry>, k: nat, radius: nat)
    requires Sorted(board) && Sorted(w) && Within(w, board) && k < |board|
    requires forall j :: 0 <= j < |board| && k - radius <= j <= k + radius ==> board[j] in w
    requires forall e :: e in board && e.member == board[k].member ==> e == board[k]
    ensures exists c :: 0 <= c < |w| && w[c].member == board[k].member
    ensures forall c :: 0 <= c < |w| && w[c].member == board[k].member ==>
              var low := Back(c, radius);
              Ranked(Slice(w, low, c + radius + 1 - low), k - (c - low)) == Around(board, k, radius)
  {
    hide Before, Sorted, Slice, Ranked;
    var a := Back(k, radius);
    var b := if k + radius + 1 < |board| then k + radius + 1 else |board|;
    var off := WindowAgrees(w, board, a, b);
    var n := off + (k - a);
    assert w[n] == w[off..off + (b - a)][k - a] == board[a..b][k - a] == board[k];
    forall c | 0 <= c < |w| && w[c].member == board[k].member ensures c == n {
      assert w[c] in w;
      SameSpot(w, c, n);
    }
    SameBracket(board, w, k, radius, off, n);
  }

  lemma SameSpot(w: seq<Entry>, c: nat, n: nat)
    requires Sorted(w) && c < |w| && n < |w| && w[c] == w[n]
    ensures c == n
  {
    hide Before;
    BeforeIrreflexive(w[c]);
  }

  lemma SameBracket(board: seq<Entry>, w: seq<Entry>, k: nat, radius: nat, off: nat, n: nat)
    requires k < |board|
    requires var a := Back(k, radius);
             var b := if k + radius + 1 < |board| then k + radius + 1 else |board|;
             && off + (b - a) <= |w| && w[off..off + (b - a)] == board[a..b] && n == off + (k - a)
             && (a == 0 ==> off == 0) && (b == |board| ==> off + (b - a) == |w|)
    ensures var low := Back(n, radius);
            Ranked(Slice(w, low, n + radius + 1 - low), k - (n - low)) == Around(board, k, radius)
  {
    var a := Back(k, radius);
    var b := if k + radius + 1 < |board| then k + radius + 1 else |board|;
    assert Back(n, radius) == off;
    assert Slice(board, a, k + radius + 1 - a) == board[a..b];
    assert Slice(w, off, n + radius + 1 - off) == w[off..off + (b - a)];
  }

  lemma AddApart(a: set<Entry>, b: set<Entry>)
    requires a !! b
    ensures |a + b| == |a| + |b|
  {
  }

  /** `max(0, i - radius)`. */
  function Back(i: nat, radius: nat): (b: nat)
    ensures b <= i && i - radius <= b
  {
    if i > radius then i - radius else 0
  }

  /** The global top is a prefix of the merged local tops. */
  lemma MergedTops(board: seq<Entry>, parts: seq<seq<Entry>>, home: string -> nat, pages: seq<seq<Entry>>, limit: nat)
    requires Dealt(board, parts, home) && limit > 0
    requires |pages| == |parts| && forall i :: 0 <= i < |pages| ==> pages[i] == Slice(parts[i], 0, limit)
    ensures Slice(MergeAll(pages), 0, limit) == Slice(board, 0, limit)
  {
    hide Merge, Before, MergeAll;
    PagesOfParts(board, parts, home, seq(|pages|, _ => 0), limit, pages);
    MergeAllIsSorted(pages);
    var w := MergeAll(pages);
    forall j | 0 <= j < limit && j < |board| ensures board[j] in w {
      var i := home(board[j].member);
      assert board[j] in parts[i];
      TopIsLocal(board, parts[i], j, limit);
      assert board[j] in pages[i];
    }
    TopAgrees(board, w, limit);
  }

  /** Pages cut from the shards are sorted, apart from each other, and on the board. */
  lemma PagesOfParts(board: seq<Entry>, parts: seq<seq<Entry>>, home: string -> nat,
                     starts: seq<nat>, count: nat, pages: seq<seq<Entry>>)
    requires Dealt(board, parts, home) && |pages| == |parts| == |starts|
    requires forall i :: 0 <= i < |pages| ==> pages[i] == Slice(parts[i], starts[i], count)
    ensures forall i :: 0 <= i < |pages| ==> Sorted(pages[i])
    ensures forall i, e :: 0 <= i < |pages| && e in pages[i] ==> e in parts[i] && e in board
    ensures forall i, j, e :: 0 <= i < j < |pages| && e in pages[i] ==> e !in pages[j]
  {
    hide Before, Sorted, Slice;
    forall i | 0 <= i < |pages|
      ensures Sorted(pages[i]) && forall e :: e in pages[i] ==> e in parts[i] && home(e.member) == i
    {
      SliceOfSorted(parts[i], starts[i], count);
    }
  }

  lemma SliceOfSorted(part: seq<Entry>, start: nat, count: nat)
    requires Sorted(part)
    ensures Sorted(Slice(part, start, count)) && forall e :: e in Slice(part, start, count) ==> e in part
  {
    hide Before;
  }

  method IndexOf(window: seq<Entry>, member: string) returns (i: nat)
    requires exists j :: 0 <= j < |window| && window[j].member == member
    ensures i < |window| && window[i].member == member
  {
    i := 0;
    while window[i].member != member
      invariant i < |window| && forall j :: 0 <= j < i ==> window[j].member != member
      decreases |window| - i
    {
      i := i + 1;
    }
  }
}
