/** Lamport, vector and hybrid clocks over arbitrary runs of local, send and deliver events. */
module LogicalClocks {

  /** One counter per node; a missing node counts as zero. */
  type Vector = map<string, nat>

  datatype Ordering = Before | After | Equal | Concurrent

  function Get(c: Vector, n: string): nat {
    if n in c then c[n] else 0
  }

  function Max(a: nat, b: nat): nat {
    if a >= b then a else b
  }

  function Tick(c: Vector, n: string): Vector {
    c[n := Get(c, n) + 1]
  }

  function Merge(a: Vector, b: Vector): Vector {
    map n | n in a.Keys + b.Keys :: Max(Get(a, n), Get(b, n))
  }

  predicate Less(a: Vector, b: Vector) {
    exists n :: n in a.Keys + b.Keys && Get(a, n) < Get(b, n)
  }

  function Compare(a: Vector, b: Vector): Ordering {
    if Less(a, b) && Less(b, a) then Concurrent
    else if Less(a, b) then Before
    else if Less(b, a) then After
    else Equal
  }

  ghost predicate Below(a: Vector, b: Vector) {
    forall n :: Get(a, n) <= Get(b, n)
  }

  /** `compare` is the pointwise order. */
  lemma CompareMeans(a: Vector, b: Vector)
    ensures Compare(a, b) == Before <==> Below(a, b) && !Below(b, a)
    ensures Compare(a, b) == Equal <==> Below(a, b) && Below(b, a)
    ensures Compare(a, b) == After <==> Compare(b, a) == Before
    ensures Compare(a, b) == Concurrent <==> !Below(a, b) && !Below(b, a)
  {
    LessMeans(a, b);
    LessMeans(b, a);
  }

  lemma LessMeans(a: Vector, b: Vector)
    ensures Less(a, b) <==> !Below(b, a)
  {
    if !Below(b, a) {
      var n :| Get(b, n) > Get(a, n);
      assert n in a.Keys + b.Keys;
    }
    if Less(a, b) {
      var n :| n in a.Keys + b.Keys && Get(a, n) < Get(b, n);
    }
  }

  // ---------------------------------------------------------------- runs

  /** A delivery names the send event whose message it is. Messages may be lost, reordered or
      delivered more than once. */
  datatype Event = Local(node: string) | Send(node: string) | Deliver(node: string, from: nat)

  type Run = seq<Event>

  ghost predicate IsRun(run: Run) {
    forall i :: 0 <= i < |run| && run[i].Deliver? ==> run[i].from < i && run[run[i].from].Send?
  }

  /** The vector stamp of event `i`: tick, after merging the message's stamp on a delivery. */
  function Stamp(run: Run, i: nat): Vector
    requires i < |run|
    decreases i, 1
  {
    var own := NodeVector(run, i, run[i].node);
    if run[i].Deliver? && run[i].from < i then Tick(Merge(own, Stamp(run, run[i].from)), run[i].node)
       else Tick(own, run[i].node)
  }

  /** The vector clock of a node after the first `i` events. */
  function NodeVector(run: Run, i: nat, n: string): Vector
    requires i <= |run|
    decreases i, 0
  {
    if i == 0 then map[] else if run[i - 1].node == n then Stamp(run, i - 1) else NodeVector(run, i - 1, n)
  }

  function Lamport(run: Run, i: nat): nat
    requires i < |run|
    decreases i, 1
  {
    var own := NodeTime(run, i, run[i].node);
    if run[i].Deliver? && run[i].from < i then Max(own, Lamport(run, run[i].from)) + 1 else own + 1
  }

  function NodeTime(run: Run, i: nat, n: string): nat
    requires i <= |run|
    decreases i, 0
  {
    if i == 0 then 0 else if run[i - 1].node == n then Lamport(run, i - 1) else NodeTime(run, i - 1, n)
  }

  // ---------------------------------------------------------------- happens-before

  /** Directly before: earlier on the same node, or the sending of the delivered message. */
  ghost predicate Edge(run: Run, i: nat, j: nat)
    requires j < |run|
  {
    i < j && (run[i].node == run[j].node || (run[j].Deliver? && run[j].from == i))
  }

  /** Lamport's relation: a chain of direct steps. */
  ghost predicate HappensBefore(run: Run, i: nat, j: nat)
    requires j < |run|
    decreases j
  {
    Edge(run, i, j) || exists k :: i < k < j && HappensBefore(run, i, k) && Edge(run, k, j)
  }

  ghost predicate Reaches(run: Run, i: nat, j: nat)
    requires j < |run|
  {
    i == j || HappensBefore(run, i, j)
  }

  lemma {:induction false} Earlier(run: Run, i: nat, j: nat)
    requires j < |run| && HappensBefore(run, i, j)
    ensures i < j
  {
  }

  lemma ReachesOn(run: Run, i: nat, k: nat, j: nat)
    requires j < |run| && k < |run| && Reaches(run, i, k) && Edge(run, k, j)
    ensures HappensBefore(run, i, j)
  {
    if i != k {
      Earlier(run, i, k);
    }
  }

  // ---------------------------------------------------------------- how many events of a node

  function Count(run: Run, i: nat, n: string): nat
    requires i <= |run|
  {
    if i == 0 then 0 else Count(run, i - 1, n) + if run[i - 1].node == n then 1 else 0
  }

  lemma {:induction false} CountGrows(run: Run, i: nat, j: nat, n: string)
    requires i <= j <= |run|
    ensures Count(run, i, n) <= Count(run, j, n)
    ensures i < j && run[i].node == n ==> Count(run, i, n) < Count(run, j, n)
  {
    if i < j {
      CountGrows(run, i, j - 1, n);
    }
  }

  /** Nobody knows of more events of a node than there have been. */
  lemma {:induction false} StampIsBounded(run: Run, i: nat, n: string)
    requires i < |run|
    ensures Get(Stamp(run, i), n) <= Count(run, i + 1, n)
    decreases i, 1
  {
    NodeIsBounded(run, i, run[i].node, n);
    if run[i].Deliver? && run[i].from < i {
      StampIsBounded(run, run[i].from, n);
      CountGrows(run, run[i].from + 1, i, n);
    }
  }

  lemma {:induction false} NodeIsBounded(run: Run, i: nat, m: string, n: string)
    requires i <= |run|
    ensures Get(NodeVector(run, i, m), n) <= Count(run, i, n)
    decreases i, 0
  {
    if i > 0 {
      if run[i - 1].node == m {
        StampIsBounded(run, i - 1, n);
      } else {
        NodeIsBounded(run, i - 1, m, n);
      }
    }
  }

  /** A node counts its own events exactly. */
  lemma {:induction false} OwnCount(run: Run, i: nat, n: string)
    requires i <= |run|
    ensures Get(NodeVector(run, i, n), n) == Count(run, i, n)
  {
    if i > 0 {
      OwnCount(run, i - 1, n);
      if run[i - 1].node == n && run[i - 1].Deliver? && run[i - 1].from < i - 1 {
        StampIsBounded(run, run[i - 1].from, n);
        CountGrows(run, run[i - 1].from + 1, i - 1, n);
      }
    }
  }

  /** The previous event of a node carries the node's vector. */
  lemma {:induction false} Previous(run: Run, i: nat, n: string) returns (p: int)
    requires i <= |run|
    ensures p == -1 ==>
              NodeVector(run, i, n) == map[] && NodeTime(run, i, n) == 0 && forall k :: 0 <= k < i ==> run[k].node != n
    ensures p != -1 ==>
              0 <= p < i && run[p].node == n && NodeVector(run, i, n) == Stamp(run, p) &&
                  NodeTime(run, i, n) == Lamport(run, p)
    ensures forall k :: p < k < i ==> run[k].node != n
  {
    if i == 0 {
      p := -1;
    } else if run[i - 1].node == n {
      p := i - 1;
    } else {
      p := Previous(run, i - 1, n);
    }
  }

  // ---------------------------------------------------------------- the main results

  /** Clocks never lose knowledge along a direct step. */
  lemma EdgeGrows(run: Run, i: nat, j: nat)
    requires IsRun(run) && j < |run| && Edge(run, i, j)
    ensures Below(Stamp(run, i), Stamp(run, j)) && Lamport(run, i) < Lamport(run, j)
  {
    if run[i].node == run[j].node {
      NodeGrows(run, i, j);
    }
  }

  /** On one node both clocks only go up. */
  lemma {:induction false} NodeGrows(run: Run, i: nat, j: nat)
    requires i < j <= |run|
    ensures Below(Stamp(run, i), NodeVector(run, j, run[i].node)) && Lamport(run, i) <= NodeTime(run, j, run[i].node)
    decreases j
  {
    if i < j - 1 {
      NodeGrows(run, i, j - 1);
    }
  }

  lemma {:induction false} PastIsBelow(run: Run, i: nat, j: nat)
    requires IsRun(run) && j < |run| && HappensBefore(run, i, j)
    ensures i < j && Below(Stamp(run, i), Stamp(run, j)) && Lamport(run, i) < Lamport(run, j)
    decreases j
  {
    hide Stamp, Lamport, Below;
    Earlier(run, i, j);
    if Edge(run, i, j) {
      EdgeGrows(run, i, j);
    } else {
      var k :| i < k < j && HappensBefore(run, i, k) && Edge(run, k, j);
      PastIsBelow(run, i, k);
      EdgeGrows(run, k, j);
      BelowIsTransitive(Stamp(run, i), Stamp(run, k), Stamp(run, j));
    }
  }

  lemma BelowIsTransitive(a: Vector, b: Vector, c: Vector)
    requires Below(a, b) && Below(b, c)
    ensures Below(a, c)
  {
  }

  /** An event's stamp counts, node by node, exactly the events in its past: the `k`-th event of a
      node is in the past of `j`, or is `j`, if and only if `j`'s counter for that node is at least `k`. */
  lemma {:induction false} StampCountsPast(run: Run, i: nat, j: nat)
    requires IsRun(run) && i < |run| && j < |run|
    ensures Reaches(run, i, j) <==> Get(Stamp(run, j), run[i].node) > Count(run, i, run[i].node)
    decreases j
  {
    var n := run[i].node;
    if Reaches(run, i, j) {
      ReachedIsCounted(run, i, j);
    }
    if Get(Stamp(run, j), n) > Count(run, i, n) {
      CountedIsReached(run, i, j);
    }
  }

  lemma StampOwn(run: Run, i: nat)
    requires i < |run|
    ensures Get(Stamp(run, i), run[i].node) == Count(run, i, run[i].node) + 1
  {
    OwnCount(run, i + 1, run[i].node);
  }

  lemma ReachedIsCounted(run: Run, i: nat, j: nat)
    requires IsRun(run) && i < |run| && j < |run| && Reaches(run, i, j)
    ensures Get(Stamp(run, j), run[i].node) > Count(run, i, run[i].node)
  {
    StampOwn(run, i);
    if i != j {
      PastIsBelow(run, i, j);
      hide Stamp, Count;
    }
  }

  lemma {:induction false} CountedIsReached(run: Run, i: nat, j: nat)
    requires IsRun(run) && i < |run| && j < |run| && Get(Stamp(run, j), run[i].node) > Count(run, i, run[i].node)
    ensures Reaches(run, i, j)
    decreases j
  {
    var n, m := run[i].node, run[j].node;
    if n == m {
      StampOwn(run, j);
      if i > j {
        CountGrows(run, j, i, n);
      }
    } else {
      var p := Previous(run, j, m);
      if p != -1 && Get(Stamp(run, p), n) > Count(run, i, n) {
        CountedIsReached(run, i, p);
        ReachesOn(run, i, p, j);
      } else {
        CountedIsReached(run, i, run[j].from);
        ReachesOn(run, i, run[j].from, j);
      }
    }
  }

  /** The vector clock theorem: one event happened before another exactly when its stamp compares
      Before; and then its Lamport time is smaller too. */
  lemma HappensBeforeIffBefore(run: Run, i: nat, j: nat)
    requires IsRun(run) && i < |run| && j < |run|
    ensures HappensBefore(run, i, j) <==> Compare(Stamp(run, i), Stamp(run, j)) == Before
    ensures HappensBefore(run, i, j) ==> Lamport(run, i) < Lamport(run, j)
    ensures Compare(Stamp(run, i), Stamp(run, j)) == Equal <==> i == j
    ensures Compare(Stamp(run, i), Stamp(run, j)) == Concurrent <==>
              i != j && !HappensBefore(run, i, j) && !HappensBefore(run, j, i)
  {
    var a, b := Stamp(run, i), Stamp(run, j);
    CompareMeans(a, b);
    BelowIffReaches(run, i, j);
    BelowIffReaches(run, j, i);
    if HappensBefore(run, i, j) {
      PastIsBelow(run, i, j);
    }
    if HappensBefore(run, j, i) {
      PastIsBelow(run, j, i);
    }
    hide Stamp, Lamport, Compare, Below, HappensBefore;
  }

  lemma BelowIffReaches(run: Run, i: nat, j: nat)
    requires IsRun(run) && i < |run| && j < |run|
    ensures Below(Stamp(run, i), Stamp(run, j)) <==> Reaches(run, i, j)
  {
    StampOwn(run, i);
    StampCountsPast(run, i, j);
    if Reaches(run, i, j) && i != j {
      PastIsBelow(run, i, j);
    }
    hide Stamp;
  }

  // ---------------------------------------------------------------- the clocks as objects

  class LamportClock {
    const nodeId: string
    var time: nat

    constructor (nodeId: string, start: nat)
      ensures this.nodeId == nodeId && time == start
    {
      this.nodeId, time := nodeId, start;
    }

    method Advance() returns (t: nat)
      modifies this
      ensures t == time == old(time) + 1
    {
      time := time + 1;
      return time;
    }

    method Receive(stamp: nat) returns (t: nat)
      modifies this
      ensures t == time == Max(old(time), stamp) + 1 && t > old(time) && t > stamp
    {
      time := Max(time, stamp) + 1;
      return time;
    }
  }

  /** One row of the table: who did it and its two stamps. */
  datatype Row = Row(node: string, lamport: nat, vector: Vector)

  /** The local/send/deliver discipline, run step by step on one clock object per node. */
  method Simulate(run: Run) returns (rows: seq<Row>)
    requires IsRun(run)
    ensures |rows| == |run|
    ensures forall i :: 0 <= i < |run| ==> rows[i] == Row(run[i].node, Lamport(run, i), Stamp(run, i))
  {
    hide Stamp, Lamport, NodeTime, NodeVector, Merge, Tick, Max;
    rows := [];
    NothingYet(run);
    var lamports: map<string, LamportClock> := map[];
    var vectors: map<string, Vector> := map[];
    for i := 0 to |run|
      invariant |rows| == i
      invariant forall k :: 0 <= k < i ==> rows[k] == Row(run[k].node, Lamport(run, k), Stamp(run, k))
      invariant forall n :: n in lamports ==> fresh(lamports[n]) && lamports[n].time == NodeTime(run, i, n)
      invariant forall n, m :: n in lamports && m in lamports && n != m ==> lamports[n] != lamports[m]
      invariant forall n :: n !in lamports ==> NodeTime(run, i, n) == 0
      invariant forall n :: Current(vectors, n) == NodeVector(run, i, n)
    {
      var e := run[i];
      if e.node !in lamports {
        var clock := new LamportClock(e.node, 0);
        lamports := lamports[e.node := clock];
      }
      StampUnfolds(run, i);
      var time: nat;
      var vector: Vector;
      if e.Deliver? {
        var payload := rows[e.from];
        vector := Tick(Merge(Current(vectors, e.node), payload.vector), e.node);
        time := lamports[e.node].Receive(payload.lamport);
      } else {
        vector := Tick(Current(vectors, e.node), e.node);
        time := lamports[e.node].Advance();
      }
      vectors := vectors[e.node := vector];
      rows := rows + [Row(e.node, time, vector)];
      NodeUnfolds(run, i, i + 1);
    }
  }

  function Current(vectors: map<string, Vector>, n: string): Vector {
    if n in vectors then vectors[n] else map[]
  }

  lemma NothingYet(run: Run)
    ensures forall n :: NodeVector(run, 0, n) == map[] && NodeTime(run, 0, n) == 0
  {
  }

  lemma StampUnfolds(run: Run, i: nat)
    requires IsRun(run) && i < |run|
    ensures run[i].Deliver? ==>
              && Stamp(run, i) == Tick(Merge(NodeVector(run, i, run[i].node), Stamp(run, run[i].from)), run[i].node)
              && Lamport(run, i) == Max(NodeTime(run, i, run[i].node), Lamport(run, run[i].from)) + 1
    ensures !run[i].Deliver? ==>
              && Stamp(run, i) == Tick(NodeVector(run, i, run[i].node), run[i].node)
              && Lamport(run, i) == NodeTime(run, i, run[i].node) + 1
  {
  }

  lemma NodeUnfolds(run: Run, i: nat, next: nat)
    requires i < |run| && next == i + 1
    ensures forall n :: NodeVector(run, next, n) == if run[i].node == n then Stamp(run, i) else NodeVector(run, i, n)
    ensures forall n :: NodeTime(run, next, n) == if run[i].node == n then Lamport(run, i) else NodeTime(run, i, n)
  {
  }
}
