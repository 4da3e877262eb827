/** Heavy hitters: a sketch for counts, a map of candidates and a min-heap with stale entries. */
module TopK {
  import opened StringOrder
  import opened CountMinSketch
  import opened Wrappers

  type Pair = (nat, string)  // (estimate, item)

  predicate PairLeq(a: Pair, b: Pair) {
    a.0 < b.0 || (a.0 == b.0 && StrLeq(a.1, b.1))
  }

  /** A min-heap as the sequence its pops would give. */
  ghost predicate IsHeap(heap: seq<Pair>) {
    forall i, j :: 0 <= i < j < |heap| ==> PairLeq(heap[i], heap[j])
  }

  function Push(heap: seq<Pair>, p: Pair): seq<Pair> {
    if heap == [] || PairLeq(p, heap[0]) then [p] + heap else [heap[0]] + Push(heap[1..], p)
  }

  lemma PairOrder(a: Pair, b: Pair, c: Pair)
    ensures PairLeq(a, b) || PairLeq(b, a)
    ensures PairLeq(a, b) && PairLeq(b, c) ==> PairLeq(a, c)
  {
    Total(a.1, b.1);
    if StrLess(a.1, b.1) && StrLess(b.1, c.1) {
      Transitive(a.1, b.1, c.1);
    }
  }

  lemma {:induction false} PushKeeps(heap: seq<Pair>, p: Pair)
    requires IsHeap(heap)
    ensures IsHeap(Push(heap, p)) && |Push(heap, p)| == |heap| + 1
    ensures forall q :: q in Push(heap, p) <==> q in heap || q == p
  {
    hide PairLeq;
    if heap != [] {
      PairOrder(p, heap[0], p);
      if !PairLeq(p, heap[0]) {
        PushKeeps(heap[1..], p);
        var rest := Push(heap[1..], p);
        assert heap == [heap[0]] + heap[1..];
        forall i | 0 <= i < |rest| ensures PairLeq(heap[0], rest[i]) {
          assert rest[i] in rest;
          if rest[i] != p {
            var j :| 0 <= j < |heap| - 1 && heap[1..][j] == rest[i];
            assert heap[j + 1] == rest[i];
          }
        }
      } else {
        forall i | 0 <= i < |heap| ensures PairLeq(p, heap[i]) {
          if i > 0 {
            PairOrder(p, heap[0], heap[i]);
          }
        }
      }
    }
  }

  /** The candidates are never missing from the heap, and nobody outside beats any of them. */
  ghost predicate Good(k: nat, h: History, digest: string -> (nat, nat), depth: nat, width: nat, heap: seq<Pair>,
                       members: map<string, nat>)
    requires width > 0
  {
    && IsHeap(heap) && |members| <= k
    && (forall m :: m in members ==> Candidate(h, digest, depth, width, heap, m, members[m]))
    && (forall x, m :: m in members && x !in members ==> CountOf(h, x) <= members[m])
    && (|members| < k ==> forall x :: x !in members ==> CountOf(h, x) == 0)
  }

  /** A candidate's pair is in the heap; its stored estimate covers its count and is no news. */
  ghost predicate Candidate(h: History, digest: string -> (nat, nat), depth: nat, width: nat, heap: seq<Pair>,
                            m: string, stored: nat)
    requires width > 0
  {
    && (stored, m) in heap && CountOf(h, m) <= stored
    && forall e :: IsEstimate(h, digest, m, depth, width, e) ==> stored <= e
  }

  lemma {:induction false} EstimateExists(h: History, digest: string -> (nat, nat), item: string, depth: nat,
                                          width: nat) returns (e: nat)
    requires width > 0 && depth > 0
    ensures IsEstimate(h, digest, item, depth, width, e)
  {
    if depth == 1 {
      e := Weight(h, digest, 0, Slot(digest, item, 0, width), width);
    } else {
      e := EstimateExists(h, digest, item, depth - 1, width);
      var w := Weight(h, digest, depth - 1, Slot(digest, item, depth - 1, width), width);
      if w < e {
        e := w;
      }
    }
  }

  lemma CountSnoc(h: History, item: string, count: nat, x: string)
    ensures CountOf(h + [(item, count)], x) == CountOf(h, x) + if x == item then count else 0
  {
    assert (h + [(item, count)])[..|h|] == h;
  }

  /** Somebody else's addition keeps a candidate a candidate. */
  lemma StillCandidate(h: History, digest: string -> (nat, nat), depth: nat, width: nat, heap: seq<Pair>, m: string,
                       stored: nat,
                       item: string, count: nat, heap': seq<Pair>)
    requires width > 0 && depth > 0 && Candidate(h, digest, depth, width, heap, m, stored) && m != item &&
             (stored, m) in heap'
    ensures Candidate(h + [(item, count)], digest, depth, width, heap', m, stored)
  {
    CountSnoc(h, item, count, m);
    hide IsEstimate, CountOf;
    var e0 := EstimateExists(h, digest, m, depth, width);
    forall e | IsEstimate(h + [(item, count)], digest, m, depth, width, e) ensures stored <= e {
      EstimateGrows(h, digest, m, depth, width, e0, (item, count), e);
    }
  }

  /** A fresh estimate makes its item a candidate. */
  lemma NewCandidate(h: History, digest: string -> (nat, nat), depth: nat, width: nat, heap: seq<Pair>, item: string,
                     e: nat)
    requires width > 0 && IsEstimate(h, digest, item, depth, width, e) && (e, item) in heap
    ensures Candidate(h, digest, depth, width, heap, item, e)
  {
    EstimateNeverUndercounts(h, digest, item, depth, width, e);
    forall x | IsEstimate(h, digest, item, depth, width, x) ensures e <= x {
      SameEstimate(h, digest, item, depth, width, e, x);
    }
  }

  lemma SameEstimate(h: History, digest: string -> (nat, nat), item: string, depth: nat, width: nat, e: nat, x: nat)
    requires width > 0 && IsEstimate(h, digest, item, depth, width, e) && IsEstimate(h, digest, item, depth, width, x)
    ensures e == x
  {
  }

  /** A candidate that is seen again: its new pair goes in, the old one is stale. */
  lemma MemberAgain(k: nat, h: History, digest: string -> (nat, nat), depth: nat, width: nat, heap: seq<Pair>,
                    members: map<string, nat>,
                    item: string, count: nat, e: nat)
    requires width > 0 && depth > 0 && Good(k, h, digest, depth, width, heap, members) && item in members
    requires IsEstimate(h + [(item, count)], digest, item, depth, width, e)
    ensures Good(k, h + [(item, count)], digest, depth, width, Push(heap, (e, item)), members[item := e])
  {
    var h', heap', members' := h + [(item, count)], Push(heap, (e, item)), members[item := e];
    PushKeeps(heap, (e, item));
    hide Push, IsEstimate, IsHeap;
    assert members'.Keys == members.Keys;
    var e0 := EstimateExists(h, digest, item, depth, width);
    assert Candidate(h, digest, depth, width, heap, item, members[item]);
    EstimateGrows(h, digest, item, depth, width, e0, (item, count), e);
    NewCandidate(h', digest, depth, width, heap', item, e);
    forall m | m in members' ensures Candidate(h', digest, depth, width, heap', m, members'[m]) {
      if m != item {
        assert Candidate(h, digest, depth, width, heap, m, members[m]);
        StillCandidate(h, digest, depth, width, heap, m, members[m], item, count, heap');
      }
    }
    hide Candidate, CountOf;
    forall x, m | m in members' && x !in members' ensures CountOf(h', x) <= members'[m] {
      CountSnoc(h, item, count, x);
    }
    forall x | x !in members' && |members'| < k ensures CountOf(h', x) == 0 {
      CountSnoc(h, item, count, x);
    }
  }

  /** The heap's top pair is current. */
  ghost predicate TopIsCurrent(heap: seq<Pair>, members: map<string, nat>) {
    heap != [] && heap[0].1 in members && members[heap[0].1] == heap[0].0
  }

  /** Popping a stale pair loses no candidate. */
  lemma PopStale(k: nat, h: History, digest: string -> (nat, nat), depth: nat, width: nat, heap: seq<Pair>,
                 members: map<string, nat>)
    requires width > 0 && Good(k, h, digest, depth, width, heap, members) && heap != [] && !TopIsCurrent(heap, members)
    ensures Good(k, h, digest, depth, width, heap[1..], members)
  {
    hide IsEstimate, CountOf, PairLeq;
    assert heap == [heap[0]] + heap[1..];
    forall m | m in members ensures Candidate(h, digest, depth, width, heap[1..], m, members[m]) {
      assert Candidate(h, digest, depth, width, heap, m, members[m]);
    }
  }

  /** A current top is the weakest candidate. */
  lemma TopIsWeakest(k: nat, h: History, digest: string -> (nat, nat), depth: nat, width: nat, heap: seq<Pair>,
                     members: map<string, nat>, m: string)
    requires width > 0 && Good(k, h, digest, depth, width, heap, members) && heap != [] && m in members
    ensures heap[0].0 <= members[m]
  {
    assert Candidate(h, digest, depth, width, heap, m, members[m]);
    var i :| 0 <= i < |heap| && heap[i] == (members[m], m);
    assert i > 0 ==> PairLeq(heap[0], heap[i]);
  }

  /** A newcomer no stronger than the weakest candidate stays out. */
  lemma StaysOut(k: nat, h: History, digest: string -> (nat, nat), depth: nat, width: nat, heap: seq<Pair>,
                 members: map<string, nat>,
                 item: string, count: nat, e: nat)
    requires width > 0 && depth > 0 && Good(k, h, digest, depth, width, heap, members) && item !in members &&
             |members| >= k
    requires IsEstimate(h + [(item, count)], digest, item, depth, width, e) && heap != [] && e <= heap[0].0
    ensures Good(k, h + [(item, count)], digest, depth, width, heap, members)
  {
    var h' := h + [(item, count)];
    EstimateNeverUndercounts(h', digest, item, depth, width, e);
    hide IsEstimate, IsHeap;
    forall m | m in members ensures Candidate(h', digest, depth, width, heap, m, members[m]) {
      assert Candidate(h, digest, depth, width, heap, m, members[m]);
      StillCandidate(h, digest, depth, width, heap, m, members[m], item, count, heap);
    }
    forall x, m | m in members && x !in members ensures CountOf(h', x) <= members[m] {
      CountSnoc(h, item, count, x);
      TopIsWeakest(k, h, digest, depth, width, heap, members, m);
    }
  }

  /** Evicting the weakest candidate makes room: it is no stronger than anyone who stays. */
  lemma Evicts(k: nat, h: History, digest: string -> (nat, nat), depth: nat, width: nat, heap: seq<Pair>,
               members: map<string, nat>, x: string)
    requires width > 0 && Good(k, h, digest, depth, width, heap, members) && TopIsCurrent(heap, members)
    ensures var rest := members - {heap[0].1};
            && IsHeap(heap[1..]) && |rest| == |members| - 1 && rest.Keys == members.Keys - {heap[0].1}
            && (forall m :: m in rest ==>
                  Candidate(h, digest, depth, width, heap[1..], m, rest[m]) && heap[0].0 <= rest[m])
            && (x !in rest ==> CountOf(h, x) <= heap[0].0)
  {
    var out := heap[0].1;
    var rest := members - {out};
    assert rest.Keys == members.Keys - {out};
    assert heap == [heap[0]] + heap[1..];
    assert Candidate(h, digest, depth, width, heap, out, members[out]);
    hide IsEstimate, PairLeq, CountOf;
    forall m | m in rest ensures Candidate(h, digest, depth, width, heap[1..], m, rest[m]) && heap[0].0 <= rest[m] {
      assert Candidate(h, digest, depth, width, heap, m, members[m]);
      TopIsWeakest(k, h, digest, depth, width, heap, members, m);
    }
  }

  /** A newcomer goes in, where nobody outside is stronger than `floor` and nobody inside weaker. */
  lemma Enters(k: nat, h: History, digest: string -> (nat, nat), depth: nat, width: nat, heap: seq<Pair>,
               members: map<string, nat>,
               item: string, count: nat, e: nat, floor: nat)
    requires width > 0 && depth > 0 && IsHeap(heap) && item !in members && |members| < k
    requires forall m :: m in members ==> Candidate(h, digest, depth, width, heap, m, members[m]) && floor <= members[m]
    requires IsEstimate(h + [(item, count)], digest, item, depth, width, e) && floor <= e
    requires forall x :: x !in members && x != item ==> CountOf(h, x) <= floor
    requires |members| + 1 < k ==> floor == 0
    ensures Good(k, h + [(item, count)], digest, depth, width, Push(heap, (e, item)), members[item := e])
  {
    var h', heap', members' := h + [(item, count)], Push(heap, (e, item)), members[item := e];
    PushKeeps(heap, (e, item));
    hide Push, IsEstimate, IsHeap;
    assert members'.Keys == members.Keys + {item};
    NewCandidate(h', digest, depth, width, heap', item, e);
    forall m | m in members' ensures Candidate(h', digest, depth, width, heap', m, members'[m]) {
      if m != item {
        assert Candidate(h, digest, depth, width, heap, m, members[m]);
        StillCandidate(h, digest, depth, width, heap, m, members[m], item, count, heap');
      }
    }
    hide Candidate, CountOf;
    forall x | x !in members' ensures CountOf(h', x) <= floor {
      CountSnoc(h, item, count, x);
    }
  }

  /** A rebuilt heap holds exactly the current pairs. */
  lemma Rebuilt(k: nat, h: History, digest: string -> (nat, nat), depth: nat, width: nat, heap: seq<Pair>,
                members: map<string, nat>, heap': seq<Pair>)
    requires width > 0 && Good(k, h, digest, depth, width, heap, members) && IsHeap(heap')
    requires forall m :: m in members ==> (members[m], m) in heap'
    ensures Good(k, h, digest, depth, width, heap', members)
  {
    hide IsEstimate, CountOf, IsHeap;
    forall m | m in members ensures Candidate(h, digest, depth, width, heap', m, members[m]) {
      assert Candidate(h, digest, depth, width, heap, m, members[m]);
    }
  }

  // ---------------------------------------------------------------- ranking

  /** Larger estimates first, ties by item. */
  predicate Outranks(a: (string, nat), b: (string, nat)) {
    a.1 > b.1 || (a.1 == b.1 && StrLess(a.0, b.0))
  }

  ghost predicate IsRanking(list: seq<(string, nat)>, members: map<string, nat>) {
    && (forall i, j :: 0 <= i < j < |list| ==> Outranks(list[i], list[j]))
    && (forall p :: p in list <==> p.0 in members && members[p.0] == p.1)
  }

  lemma OutranksOrder(a: (string, nat), b: (string, nat), c: (string, nat))
    ensures a.0 != b.0 ==> Outranks(a, b) || Outranks(b, a)
    ensures Outranks(a, b) && Outranks(b, c) ==> Outranks(a, c)
  {
    Total(a.0, b.0);
    if StrLess(a.0, b.0) && StrLess(b.0, c.0) {
      Transitive(a.0, b.0, c.0);
    }
  }

  lemma OutranksRest(list: seq<(string, nat)>, at: nat, p: (string, nat))
    requires forall i, j :: 0 <= i < j < |list| ==> Outranks(list[i], list[j])
    requires at <= |list| && (at < |list| ==> !Outranks(list[at], p)) && forall q :: q in list ==> q.0 != p.0
    ensures forall i :: at <= i < |list| ==> Outranks(p, list[i])
  {
    hide Outranks;
    forall i | at <= i < |list| ensures Outranks(p, list[i]) {
      assert list[at] in list;
      OutranksOrder(p, list[at], list[i]);
    }
  }

  lemma InsertRank(list: seq<(string, nat)>, at: nat, p: (string, nat))
    requires forall i, j :: 0 <= i < j < |list| ==> Outranks(list[i], list[j])
    requires at <= |list| && forall i :: 0 <= i < at ==> Outranks(list[i], p)
    requires (at < |list| ==> !Outranks(list[at], p)) && forall q :: q in list ==> q.0 != p.0
    ensures var r := list[..at] + [p] + list[at..];
            && (forall i, j :: 0 <= i < j < |r| ==> Outranks(r[i], r[j]))
            && (forall q :: q in r <==> q in list || q == p)
  {
    hide Outranks;
    OutranksRest(list, at, p);
    RankInserted(list, at, p);
    assert list == list[..at] + list[at..];
  }

  lemma RankInserted(list: seq<(string, nat)>, at: nat, p: (string, nat))
    requires forall i, j :: 0 <= i < j < |list| ==> Outranks(list[i], list[j])
    requires at <= |list| && forall i :: 0 <= i < at ==> Outranks(list[i], p)
    requires forall i :: at <= i < |list| ==> Outranks(p, list[i])
    ensures var r := list[..at] + [p] + list[at..]; forall i, j :: 0 <= i < j < |r| ==> Outranks(r[i], r[j])
  {
    hide Outranks;
    var r := list[..at] + [p] + list[at..];
    forall i, j | 0 <= i < j < |r| ensures Outranks(r[i], r[j]) {
      assert r[i] == if i < at then list[i] else if i == at then p else list[i - 1];
      assert r[j] == if j < at then list[j] else if j == at then p else list[j - 1];
    }
  }

  /** Python's `list[:n]`. */
  function FirstN<T>(list: seq<T>, n: int): seq<T> {
    if n >= 0 then (if n <= |list| then list[..n] else list)
    else if -n <= |list| then list[..|list| + n] else []
  }

  // ---------------------------------------------------------------- the class

  class TopK {
    const k: nat
    const sketch: Sketch
    var heap: seq<Pair>
    var members: map<string, nat>

    ghost predicate Valid()
      reads this, sketch, sketch.rows
    {
      && k > 0 && sketch.Valid() && |heap| <= 4 * k
      && Good(k, sketch.history, sketch.digest, sketch.depth, sketch.width, heap, members)
    }

    constructor (k: nat, width: nat, depth: nat, digest: string -> (nat, nat))
      requires k > 0 && width > 0 && depth > 0
      ensures Valid() && fresh(sketch) && fresh(sketch.rows) && sketch.history == [] && this.k == k
    {
      this.k := k;
      heap, members := [], map[];
      sketch := new Sketch(width, depth, digest);
    }

    /** Count an item, and let it in when it beats the weakest candidate. */
    method Add(item: string, count: int) returns (r: Result<()>)
      requires Valid()
      modifies this, sketch, sketch.rows
      ensures Valid() && (r.Invalid? <==> count <= 0)
      ensures sketch.history == if count <= 0 then old(sketch.history) else old(sketch.history) + [(item, count)]
    {
      hide *;
      Unpack();
      ghost var h := sketch.history;
      r := sketch.Add(item, count);
      if r.Invalid? {
        Repack();
        return;
      }
      var estimate := sketch.Estimate(item);
      Place(item, count, estimate, h);
      if |heap| > 4 * k {
        Rebuild();
      }
      Repack();
    }

    lemma Unpack()
      requires Valid()
      ensures k > 0 && sketch.Valid() && |heap| <= 4 * k && sketch.width > 0 && sketch.depth > 0
      ensures Good(k, sketch.history, sketch.digest, sketch.depth, sketch.width, heap, members)
    {
    }

    lemma Repack()
      requires k > 0 && sketch.Valid() && |heap| <= 4 * k
      requires sketch.width > 0 && Good(k, sketch.history, sketch.digest, sketch.depth, sketch.width, heap, members)
      ensures Valid()
    {
    }

    method Place(item: string, count: nat, estimate: nat, ghost h: History)
      requires k > 0 && sketch.width > 0 && sketch.depth > 0
      requires Good(k, h, sketch.digest, sketch.depth, sketch.width, heap, members)
      requires IsEstimate(h + [(item, count)], sketch.digest, item, sketch.depth, sketch.width, estimate)
      modifies this`heap, this`members
      ensures Good(k, h + [(item, count)], sketch.digest, sketch.depth, sketch.width, heap, members)
    {
      hide *;
      var digest, depth, width := sketch.digest, sketch.depth, sketch.width;
      if item in members {
        MemberAgain(k, h, digest, depth, width, heap, members, item, count, estimate);
        members := members[item := estimate];
        heap := Push(heap, (estimate, item));
        return;
      }
      DropStale(h);
      if |members| >= k {
        TopExists(h);
        if estimate <= heap[0].0 {
          StaysOut(k, h, digest, depth, width, heap, members, item, count, estimate);
          return;
        }
        Replace(item, count, estimate, h);
        return;
      }
      RoomLeft(k, h, digest, depth, width, heap, members, item);
      Enters(k, h, digest, depth, width, heap, members, item, count, estimate, 0);
      members := members[item := estimate];
      heap := Push(heap, (estimate, item));
    }

    /** Pop pairs that are out of date until the top is current. The sketch is one addition ahead of `h`. */
    method DropStale(ghost h: History)
      requires sketch.width > 0 && Good(k, h, sketch.digest, sketch.depth, sketch.width, heap, members)
      modifies this`heap
      ensures Good(k, h, sketch.digest, sketch.depth, sketch.width, heap, members)
      ensures heap == [] || TopIsCurrent(heap, members)
    {
      hide Good, CountOf, IsEstimate;
      while heap != [] && !(heap[0].1 in members && members[heap[0].1] == heap[0].0)
        invariant Good(k, h, sketch.digest, sketch.depth, sketch.width, heap, members)
        decreases |heap|
      {
        PopStale(k, h, sketch.digest, sketch.depth, sketch.width, heap, members);
        heap := heap[1..];
      }
    }

    lemma TopExists(h: History)
      requires sketch.width > 0 && Good(k, h, sketch.digest, sketch.depth, sketch.width, heap, members)
      requires |members| >= k > 0 && (heap == [] || TopIsCurrent(heap, members))
      ensures heap != [] && TopIsCurrent(heap, members) && heap[0].1 in members && |members| == k
    {
      var m :| m in members;
      assert Candidate(h, sketch.digest, sketch.depth, sketch.width, heap, m, members[m]);
    }

    /** Evict the weakest candidate and take its place. */
    method Replace(item: string, count: nat, estimate: nat, ghost h: History)
      requires sketch.width > 0 && sketch.depth > 0 &&
               Good(k, h, sketch.digest, sketch.depth, sketch.width, heap, members)
      requires heap != [] && TopIsCurrent(heap, members) && item !in members && |members| == k && estimate > heap[0].0
      requires IsEstimate(h + [(item, count)], sketch.digest, item, sketch.depth, sketch.width, estimate)
      modifies this`heap, this`members
      ensures Good(k, h + [(item, count)], sketch.digest, sketch.depth, sketch.width, heap, members)
    {
      hide *;
      ghost var digest, depth, width := sketch.digest, sketch.depth, sketch.width;
      forall x
        ensures var rest := members - {heap[0].1};
                && IsHeap(heap[1..]) && |rest| == |members| - 1 && rest.Keys == members.Keys - {heap[0].1}
                && (forall m :: m in rest ==>
                      Candidate(h, digest, depth, width, heap[1..], m, rest[m]) && heap[0].0 <= rest[m])
                && (x !in rest ==> CountOf(h, x) <= heap[0].0)
      {
        Evicts(k, h, digest, depth, width, heap, members, x);
      }
      var (floor, evicted) := heap[0];
      heap := heap[1..];
      members := members - {evicted};
      Enters(k, h, digest, depth, width, heap, members, item, count, estimate, floor);
      members := members[item := estimate];
      heap := Push(heap, (estimate, item));
    }

    /** Drop every stale pair at once: one pair per candidate, heapified. */
    method Rebuild()
      requires sketch.Valid() && sketch.width > 0 &&
               Good(k, sketch.history, sketch.digest, sketch.depth, sketch.width, heap, members)
      modifies this`heap
      ensures Good(k, sketch.history, sketch.digest, sketch.depth, sketch.width, heap, members) && |heap| <= 4 * k
    {
      hide *;
      var rebuilt: seq<Pair> := [];
      var rest := members.Keys;
      NoPairs();
      while rest != {}
        invariant heap == old(heap)
        invariant rest <= members.Keys && IsHeap(rebuilt) && |rebuilt| + |rest| == |members.Keys|
        invariant forall m :: m in members && m !in rest ==> (members[m], m) in rebuilt
        decreases |rest|
      {
        var m :| m in rest;
        PushKeeps(rebuilt, (members[m], m));
        rest := rest - {m};
        rebuilt := Push(rebuilt, (members[m], m));
      }
      AtMostK();
      Rebuilt(k, sketch.history, sketch.digest, sketch.depth, sketch.width, heap, members, rebuilt);
      heap := rebuilt;
    }

    lemma NoPairs()
      ensures IsHeap([])
    {
    }

    lemma AtMostK()
      requires sketch.width > 0 && Good(k, sketch.history, sketch.digest, sketch.depth, sketch.width, heap, members)
      ensures |members.Keys| == |members| <= k
    {
    }

    /** Candidates by estimate, largest first. Whoever is not a candidate has a true count no larger
        than any listed estimate, and no listed estimate is below its item's true count. */
    method Top(n: Option<int>) returns (list: seq<(string, nat)>)
      requires Valid()
      ensures exists all :: IsRanking(all, members) &&
                list == FirstN(all, if n.Some? && n.value != 0 then n.value else k)
      ensures forall x, p :: x !in members && p in list ==> CountOf(sketch.history, x) <= p.1
      ensures forall p :: p in list ==> CountOf(sketch.history, p.0) <= p.1
    {
      hide *;
      var ranked := Ranked();
      list := FirstN(ranked, if n.Some? && n.value != 0 then n.value else k);
      ListedAre(ranked, list, if n.Some? && n.value != 0 then n.value else k);
    }

    lemma ListedAre(ranked: seq<(string, nat)>, list: seq<(string, nat)>, n: int)
      requires Valid() && IsRanking(ranked, members) && list == FirstN(ranked, n)
      ensures forall x, p :: x !in members && p in list ==> CountOf(sketch.history, x) <= p.1
      ensures forall p :: p in list ==> CountOf(sketch.history, p.0) <= p.1
    {
      hide CountOf, IsEstimate, Outranks;
      forall p | p in list ensures p.0 in members && members[p.0] == p.1 {
        assert p in ranked;
      }
      forall p | p in list ensures CountOf(sketch.history, p.0) <= p.1 {
        assert Candidate(sketch.history, sketch.digest, sketch.depth, sketch.width, heap, p.0, members[p.0]);
      }
    }

    method Ranked() returns (ranked: seq<(string, nat)>)
      ensures IsRanking(ranked, members)
    {
      hide Outranks;
      ranked := [];
      var rest := members.Keys;
      while rest != {}
        invariant rest <= members.Keys
        invariant forall i, j :: 0 <= i < j < |ranked| ==> Outranks(ranked[i], ranked[j])
        invariant forall p :: p in ranked <==> p.0 in members && p.0 !in rest && members[p.0] == p.1
        decreases |rest|
      {
        var m :| m in rest;
        rest := rest - {m};
        var p := (m, members[m]);
        var at := 0;
        while at < |ranked| && Outranks(ranked[at], p)
          invariant at <= |ranked| && forall i :: 0 <= i < at ==> Outranks(ranked[i], p)
        {
          at := at + 1;
        }
        InsertRank(ranked, at, p);
        ranked := ranked[..at] + [p] + ranked[at..];
      }
    }
  }

  lemma RoomLeft(k: nat, h: History, digest: string -> (nat, nat), depth: nat, width: nat, heap: seq<Pair>,
                 members: map<string, nat>, item: string)
    requires width > 0 && Good(k, h, digest, depth, width, heap, members) && |members| < k
    ensures IsHeap(heap)
    ensures forall m :: m in members ==> Candidate(h, digest, depth, width, heap, m, members[m])
    ensures forall x :: x !in members && x != item ==> CountOf(h, x) <= 0
  {
  }
}
