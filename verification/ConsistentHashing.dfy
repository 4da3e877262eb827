/** The consistent-hash ring with virtual nodes: placement, lookup and preference lists. */
module ConsistentHashing {
  import opened StringOrder

  datatype Point = Point(position: nat, node: string)

  datatype Result<+T> = Ok(value: T) | Conflict | NotFound | Invalid | Empty

  /** Tuple order on `(position, node)`. */
  predicate PointLess(a: Point, b: Point) {
    a.position < b.position || (a.position == b.position && StrLess(a.node, b.node))
  }

  ghost predicate Sorted(ring: seq<Point>) {
    forall i, j :: 0 <= i < j < |ring| ==> !PointLess(ring[j], ring[i])
  }

  lemma PointTransitive(a: Point, b: Point, c: Point)
    requires !PointLess(b, a) && !PointLess(c, b)
    ensures !PointLess(c, a)
  {
    Total(a.node, b.node);
    Total(b.node, c.node);
    if a.position == b.position == c.position && a.node != b.node && b.node != c.node {
      Transitive(a.node, b.node, c.node);
    }
    if StrLess(c.node, a.node) {
      if a.node != b.node && StrLess(a.node, b.node) { Transitive(c.node, a.node, b.node); }
      Irreflexive(c.node);
      if StrLess(b.node, c.node) && StrLess(c.node, b.node) { Transitive(b.node, c.node, b.node); Irreflexive(b.node); }
    }
  }

  lemma PointAntisymmetric(a: Point, b: Point)
    requires !PointLess(a, b) && !PointLess(b, a)
    ensures a == b
  {
    Total(a.node, b.node);
  }

  lemma PointAsymmetric(a: Point, b: Point)
    requires PointLess(a, b)
    ensures !PointLess(b, a)
  {
    if StrLess(a.node, b.node) && StrLess(b.node, a.node) {
      Transitive(a.node, b.node, a.node);
      Irreflexive(a.node);
    }
  }

  // ---------------------------------------------------------------- the sorted tuple of points

  /** Insert behind every smaller or equal point. */
  function InsertPoint(ring: seq<Point>, p: Point): (r: seq<Point>)
    ensures multiset(r) == multiset(ring) + multiset{p}
  {
    if ring == [] then [p]
    else if PointLess(p, ring[0]) then [p] + ring
    else
      assert ring == [ring[0]] + ring[1..];
      [ring[0]] + InsertPoint(ring[1..], p)
  }

  lemma {:induction false} InsertKeepsSorted(ring: seq<Point>, p: Point)
    requires Sorted(ring)
    ensures Sorted(InsertPoint(ring, p))
  {
    hide PointLess;
    if ring != [] {
      if PointLess(p, ring[0]) {
        PointAsymmetric(p, ring[0]);
        ConsSorted(p, ring);
      } else {
        var rest := InsertPoint(ring[1..], p);
        InsertKeepsSorted(ring[1..], p);
        forall i | 0 <= i < |rest| ensures !PointLess(rest[i], ring[0]) {
          assert rest[i] in multiset(rest);
          assert rest[i] == p || rest[i] in ring[1..];
        }
      }
    }
  }

  lemma ConsSorted(p: Point, ring: seq<Point>)
    requires Sorted(ring) && ring != [] && !PointLess(ring[0], p)
    ensures Sorted([p] + ring)
  {
    hide PointLess;
    forall i | 0 <= i < |ring| ensures !PointLess(ring[i], p) {
      if i > 0 {
        PointTransitive(p, ring[0], ring[i]);
      }
    }
  }

  /** `sorted(ring + points)`. */
  function InsertAll(ring: seq<Point>, points: seq<Point>): (r: seq<Point>)
    ensures multiset(r) == multiset(ring) + multiset(points)
  {
    if points == [] then ring else
      assert points == points[..|points| - 1] + [points[|points| - 1]];
      InsertPoint(InsertAll(ring, points[..|points| - 1]), points[|points| - 1])
  }

  lemma {:induction false} InsertAllSorted(ring: seq<Point>, points: seq<Point>)
    requires Sorted(ring)
    ensures Sorted(InsertAll(ring, points))
  {
    if points != [] {
      InsertAllSorted(ring, points[..|points| - 1]);
      InsertKeepsSorted(InsertAll(ring, points[..|points| - 1]), points[|points| - 1]);
    }
  }

  /** A sorted ring is determined by which points it holds. */
  lemma {:induction false} SortedIsCanonical(a: seq<Point>, b: seq<Point>)
    requires Sorted(a) && Sorted(b) && multiset(a) == multiset(b)
    ensures a == b
  {
    hide PointLess, Sorted;
    SameLength(a, b);
    if a != [] {
      SharedMembers(a, b);
      FirstIsLeast(a, b[0]);
      FirstIsLeast(b, a[0]);
      PointAntisymmetric(a[0], b[0]);
      TailCounts(a);
      TailCounts(b);
      TailSorted(a);
      TailSorted(b);
      SortedIsCanonical(a[1..], b[1..]);
      assert a == [a[0]] + a[1..] && b == [b[0]] + b[1..];
    }
  }

  lemma SameLength(a: seq<Point>, b: seq<Point>)
    requires multiset(a) == multiset(b)
    ensures |a| == |b|
  {
    assert |multiset(a)| == |a| && |multiset(b)| == |b|;
  }

  lemma SharedMembers(a: seq<Point>, b: seq<Point>)
    requires multiset(a) == multiset(b) && a != [] && b != []
    ensures a[0] in b && b[0] in a
  {
    assert a[0] in multiset(b) && b[0] in multiset(a);
  }

  lemma TailCounts(a: seq<Point>)
    requires a != []
    ensures multiset(a[1..]) == multiset(a) - multiset{a[0]}
  {
    assert a == [a[0]] + a[1..];
  }

  lemma TailSorted(a: seq<Point>)
    requires a != [] && Sorted(a)
    ensures Sorted(a[1..])
  {
    hide PointLess;
  }

  lemma FirstIsLeast(a: seq<Point>, p: Point)
    requires Sorted(a) && p in a
    ensures !PointLess(p, a[0])
  {
    hide PointLess;
    var i :| 0 <= i < |a| && a[i] == p;
    if i == 0 {
      if PointLess(p, p) {
        PointAsymmetric(p, p);
      }
    }
  }

  /** `remove_node`: the ring without one node's points. */
  function Without(ring: seq<Point>, node: string): (r: seq<Point>)
    ensures forall p :: p in r ==> p in ring && p.node != node
  {
    if ring == [] then [] else
      if ring[0].node == node then Without(ring[1..], node) else [ring[0]] + Without(ring[1..], node)
  }

  lemma {:induction false} WithoutCounts(ring: seq<Point>, node: string, p: Point)
    ensures multiset(Without(ring, node))[p] == if p.node == node then 0 else multiset(ring)[p]
  {
    if ring != [] {
      WithoutCounts(ring[1..], node, p);
      assert ring == [ring[0]] + ring[1..];
    }
  }

  lemma {:induction false} WithoutSorted(ring: seq<Point>, node: string)
    requires Sorted(ring)
    ensures Sorted(Without(ring, node))
  {
    hide PointLess;
    if ring != [] {
      WithoutSorted(ring[1..], node);
      var rest := Without(ring[1..], node);
      forall i | 0 <= i < |rest| ensures !PointLess(rest[i], ring[0]) {
        assert rest[i] in rest;
      }
    }
  }

  lemma {:induction false} WithoutConcat(a: seq<Point>, b: seq<Point>, node: string)
    ensures Without(a + b, node) == Without(a, node) + Without(b, node)
  {
    if a == [] {
      assert a + b == b;
    } else {
      assert (a + b)[1..] == a[1..] + b;
      WithoutConcat(a[1..], b, node);
    }
  }

  // ---------------------------------------------------------------- clockwise order

  /** How many leading points lie before position `h`: where `bisect_left` lands. */
  function Below(ring: seq<Point>, h: nat): (c: nat)
    ensures c <= |ring|
    ensures forall i :: 0 <= i < c ==> ring[i].position < h
    ensures Sorted(ring) ==> forall i :: c <= i < |ring| ==> h <= ring[i].position
  {
    if ring == [] || h <= ring[0].position then 0 else 1 + Below(ring[1..], h)
  }

  lemma BelowIsUnique(ring: seq<Point>, h: nat, c: nat)
    requires c <= |ring|
    requires forall i :: 0 <= i < c ==> ring[i].position < h
    requires forall i :: c <= i < |ring| ==> h <= ring[i].position
    ensures Below(ring, h) == c
  {
    if c > 0 {
      BelowIsUnique(ring[1..], h, c - 1);
    }
  }

  /** All points of the ring, clockwise from `h`. */
  function Clockwise(ring: seq<Point>, h: nat): (s: seq<Point>)
    ensures |s| == |ring|
  {
    var c := Below(ring, h);
    ring[c..] + ring[..c]
  }

  /** The index `offset` steps on from `start` in a tuple of `n`, around its end. */
  function Around(start: nat, offset: nat, n: nat): (i: nat)
    requires n > 0
    ensures i < n
  {
    (start + offset) % n
  }

  /** Walking `offset` steps from where `bisect_left` lands, around the end of the tuple. */
  lemma WrapAround(ring: seq<Point>, h: nat, offset: nat)
    requires offset < |ring|
    ensures Clockwise(ring, h)[offset] == ring[Around(Below(ring, h), offset, |ring|)]
  {
    var c, n := Below(ring, h), |ring|;
    Wrapped(c + offset, n);
    hide Below;
    if c + offset < n {
      assert Clockwise(ring, h)[offset] == ring[c..][offset];
    } else {
      assert Clockwise(ring, h)[offset] == ring[..c][offset - (n - c)];
    }
  }

  lemma Multiples(n: nat, q: int)
    ensures q >= 2 ==> n * q >= n + n
    ensures q <= 0 ==> n * q <= 0
  {
    if q >= 2 {
      assert n * q == n + n + n * (q - 2);
    }
  }

  lemma Wrapped(x: nat, n: nat)
    requires 0 < n && x < 2 * n
    ensures x % n == if x < n then x else x - n
  {
    var q := x / n;
    Multiples(n, q);
    assert x == n * q + x % n;
  }

  /** The nodes met along `points`, each at its first appearance. */
  function Nodes(points: seq<Point>): (names: seq<string>)
    ensures forall n :: n in names <==> exists i :: 0 <= i < |points| && points[i].node == n
    ensures forall i, j :: 0 <= i < j < |names| ==> names[i] != names[j]
    ensures |names| <= |points|
  {
    if points == [] then [] else
      var k := |points| - 1;
      var front := Nodes(points[..k]);
      assert forall i {:trigger points[i]} :: 0 <= i < k ==> points[..k][i] == points[i];
      if points[k].node in front then front else front + [points[k].node]
  }

  function Minus(names: seq<string>, node: string): seq<string> {
    if names == [] then [] else
      var k := |names| - 1;
      Minus(names[..k], node) + if names[k] == node then [] else [names[k]]
  }

  lemma {:induction false} MinusMembers(names: seq<string>, node: string)
    ensures forall n :: n in Minus(names, node) <==> n in names && n != node
    ensures node !in names ==> Minus(names, node) == names
  {
    if names != [] {
      MinusMembers(names[..|names| - 1], node);
      assert names == names[..|names| - 1] + [names[|names| - 1]];
    }
  }

  lemma NodesSnoc(front: seq<Point>, p: Point)
    ensures Nodes(front + [p]) == if p.node in Nodes(front) then Nodes(front) else Nodes(front) + [p.node]
  {
    assert (front + [p])[..|front|] == front;
  }

  lemma MinusSnoc(front: seq<string>, n: string, node: string)
    ensures Minus(front + [n], node) == Minus(front, node) + if n == node then [] else [n]
  {
    assert (front + [n])[..|front|] == front;
  }

  lemma {:induction false} NodesWithout(points: seq<Point>, node: string)
    ensures Nodes(Without(points, node)) == Minus(Nodes(points), node)
  {
    hide Nodes, Minus, Without;
    if points == [] {
      NodesOfNone(node);
    } else {
      var front, last := points[..|points| - 1], points[|points| - 1];
      NodesWithout(front, node);
      assert points == front + [last];
      NodesSnoc(front, last);
      WithoutConcat(front, [last], node);
      WithoutOne(last, node);
      MinusMembers(Nodes(front), node);
      MinusSnoc(Nodes(front), last.node, node);
      assert Without(front, node) + [] == Without(front, node);
      assert Minus(Nodes(front), node) + [] == Minus(Nodes(front), node);
      if last.node != node {
        NodesSnoc(Without(front, node), last);
      }
    }
  }

  lemma NodesOfNone(node: string)
    ensures Nodes([]) == [] && Minus([], node) == [] && Without([], node) == []
  {
  }

  lemma WithoutOne(p: Point, node: string)
    ensures Without([p], node) == if p.node == node then [] else [p]
  {
  }

  lemma {:induction false} NodesPrefix(points: seq<Point>, k: nat)
    requires k <= |points|
    ensures Nodes(points[..k]) <= Nodes(points)
  {
    if k < |points| {
      NodesPrefix(points[..|points| - 1], k);
      assert points[..|points| - 1][..k] == points[..k];
    } else {
      assert points[..k] == points;
    }
  }

  /** Where `h` falls in the ring once a node's points are gone. */
  lemma BelowWithout(ring: seq<Point>, node: string, h: nat)
    requires Sorted(ring)
    ensures Below(Without(ring, node), h) == |Without(ring[..Below(ring, h)], node)|
  {
    hide Sorted, PointLess, Without;
    var c := Below(ring, h);
    var near, far := Without(ring[..c], node), Without(ring[c..], node);
    forall i | 0 <= i < |near| ensures near[i].position < h {
      assert near[i] in near;
    }
    forall i | 0 <= i < |far| ensures h <= far[i].position {
      assert far[i] in far;
    }
    assert ring == ring[..c] + ring[c..];
    WithoutConcat(ring[..c], ring[c..], node);
    hide *;
    assert (near + far)[..|near|] == near && (near + far)[|near|..] == far;
    BelowIsUnique(near + far, h, |near|);
  }

  lemma ClockwiseWithout(ring: seq<Point>, node: string, h: nat)
    requires Sorted(ring)
    ensures Clockwise(Without(ring, node), h) == Without(Clockwise(ring, h), node)
  {
    hide PointLess, Without, Below, Sorted;
    var c := Below(ring, h);
    var near, far := ring[..c], ring[c..];
    BelowWithout(ring, node, h);
    assert ring == near + far;
    WithoutConcat(near, far, node);
    WithoutConcat(far, near, node);
    assert (Without(near, node) + Without(far, node))[..|Without(near, node)|] == Without(near, node);
  }

  /** A key's full preference order: every node, clockwise from the key's position. */
  function FullOrder(ring: seq<Point>, h: nat): seq<string> {
    Nodes(Clockwise(ring, h))
  }

  /** Removing a node deletes it from every key's preference order and changes nothing else. */
  lemma RemovalDeletesFromOrder(ring: seq<Point>, node: string, h: nat)
    requires Sorted(ring)
    ensures FullOrder(Without(ring, node), h) == Minus(FullOrder(ring, h), node)
  {
    ClockwiseWithout(ring, node, h);
    NodesWithout(Clockwise(ring, h), node);
  }

  /** Adding a node moves only the keys the new node now owns. */
  lemma OnlyTheNewNodeGains(old': seq<Point>, new': seq<Point>, node: string, h: nat)
    requires Sorted(new') && Without(new', node) == old' && old' != []
    ensures FullOrder(new', h) != [] && FullOrder(old', h) != []
    ensures FullOrder(new', h)[0] == node || FullOrder(new', h)[0] == FullOrder(old', h)[0]
    ensures FullOrder(old', h) == Minus(FullOrder(new', h), node)
  {
    RemovalDeletesFromOrder(new', node, h);
    assert Clockwise(old', h)[0].node in FullOrder(old', h);
    var order := FullOrder(new', h);
    MinusMembers(order, node);
    if order[0] != node {
      MinusKeepsHead(order, node);
    }
  }

  lemma {:induction false} MinusKeepsHead(names: seq<string>, node: string)
    requires names != [] && names[0] != node
    ensures Minus(names, node) != [] && Minus(names, node)[0] == names[0]
  {
    if |names| > 1 {
      MinusKeepsHead(names[..|names| - 1], node);
    }
  }

  lemma FirstOwner(ring: seq<Point>, h: nat)
    requires ring != []
    ensures FullOrder(ring, h) != [] && FullOrder(ring, h)[0] == ring[Below(ring, h) % |ring|].node
  {
    var walk := Clockwise(ring, h);
    WrapAround(ring, h, 0);
    NodesPrefix(walk, 1);
    assert walk[..1] == [] + [walk[0]];
    NodesSnoc([], walk[0]);
    NodesOfNone("");
    assert Nodes(walk[..1])[0] == walk[0].node;
  }

  lemma NodesStep(walk: seq<Point>, k: nat, next: nat)
    requires k < |walk| && next == k + 1
    ensures var met := Nodes(walk[..k]);
            Nodes(walk[..next]) == if walk[k].node in met then met else met + [walk[k].node]
  {
    assert walk[..next] == walk[..k] + [walk[k]];
    NodesSnoc(walk[..k], walk[k]);
  }

  lemma EnoughNodes(walk: seq<Point>, k: nat, replicas: nat)
    requires k <= |walk| && |Nodes(walk[..k])| == replicas
    ensures replicas <= |Nodes(walk)| && Nodes(walk)[..replicas] == Nodes(walk[..k])
  {
    NodesPrefix(walk, k);
  }

  lemma OrderIs(ring: seq<Point>, h: nat)
    ensures FullOrder(ring, h) == Nodes(Clockwise(ring, h))
  {
  }

  lemma NoNodesYet(walk: seq<Point>)
    ensures Nodes(walk[..0]) == []
  {
  }

  // ---------------------------------------------------------------- the ring

  function Points(pointAt: (string, nat) -> nat, node: string, count: nat): seq<Point> {
    seq(count, i requires 0 <= i < count => Point(pointAt(node, i), node))
  }

  ghost function Expected(pointAt: (string, nat) -> nat, vnodes: nat, weights: map<string, nat>, p: Point): nat {
    if p.node in weights then multiset(Points(pointAt, p.node, vnodes * weights[p.node]))[p] else 0
  }

  /** The ring holds exactly the points its members' weights call for. */
  ghost predicate Holds(ring: seq<Point>, pointAt: (string, nat) -> nat, vnodes: nat, weights: map<string, nat>) {
    Sorted(ring) && forall p :: multiset(ring)[p] == Expected(pointAt, vnodes, weights, p)
  }

  /** Two rings with the same members and weights are the same ring, whatever the order in
      which the members came and went. */
  lemma RingDependsOnMembersOnly(a: seq<Point>, b: seq<Point>, pointAt: (string, nat) -> nat, vnodes: nat,
                                 weights: map<string, nat>)
    requires Holds(a, pointAt, vnodes, weights) && Holds(b, pointAt, vnodes, weights)
    ensures a == b
  {
    hide PointLess, Expected;
    assert multiset(a) == multiset(b);
    SortedIsCanonical(a, b);
  }

  class HashRing {
    const vnodes: nat
    const pointAt: (string, nat) -> nat  // position of a node's i-th virtual node
    const keyAt: string -> nat  // position of a key
    var ring: seq<Point>
    var weights: map<string, nat>

    ghost predicate Valid()
      reads this
    {
      && vnodes > 0 && Holds(ring, pointAt, vnodes, weights)
      && forall n :: n in weights ==> weights[n] > 0
    }

    constructor (vnodes: nat, pointAt: (string, nat) -> nat, keyAt: string -> nat)
      requires vnodes > 0
      ensures Valid() && weights == map[]
      ensures this.vnodes == vnodes && this.pointAt == pointAt && this.keyAt == keyAt
    {
      this.vnodes, this.pointAt, this.keyAt := vnodes, pointAt, keyAt;
      ring, weights := [], map[];
    }

    method AddNode(node: string, weight: int) returns (r: Result<()>)
      requires Valid()
      modifies this
      ensures Valid()
      ensures if node == "" || weight <= 0 then r == Invalid && ring == old(ring) && weights == old(weights)
              else if node in old(weights) then r == Conflict && ring == old(ring) && weights == old(weights)
              else r == Ok(()) && weights == old(weights)[node := weight] && Without(ring, node) == old(ring)
    {
      hide PointLess;
      if node == "" || weight <= 0 {
        return Invalid;
      }
      if node in weights {
        return Conflict;
      }
      var points := Points(pointAt, node, vnodes * weight);
      AddedPoints(ring, pointAt, vnodes, weights, node, weight);
      ring := InsertAll(ring, points);
      weights := weights[node := weight];
      return Ok(());
    }

    method RemoveNode(node: string) returns (r: Result<()>)
      requires Valid()
      modifies this
      ensures Valid()
      ensures if node !in old(weights) then r == NotFound && ring == old(ring) && weights == old(weights)
              else r == Ok(()) && weights == old(weights) - {node} && ring == Without(old(ring), node)
    {
      hide PointLess;
      if node !in weights {
        return NotFound;
      }
      RemovedPoints(ring, pointAt, vnodes, weights, node);
      ring := Without(ring, node);
      weights := weights - {node};
      return Ok(());
    }

    /** `bisect_left(ring, (h, ""))`: no point sorts before the empty name at its own position. */
    method BisectLeft(h: nat) returns (lo: nat)
      requires Valid()
      ensures lo == Below(ring, h)
    {
      hide Expected;
      lo := 0;
      var hi := |ring|;
      while lo < hi
        invariant lo <= hi <= |ring|
        invariant forall i :: 0 <= i < lo ==> ring[i].position < h
        invariant forall i :: hi <= i < |ring| ==> h <= ring[i].position
      {
        var mid := (lo + hi) / 2;
        assert forall i :: 0 <= i < mid ==> !PointLess(ring[mid], ring[i]);
        assert forall i :: mid < i < |ring| ==> !PointLess(ring[i], ring[mid]);
        if PointLess(ring[mid], Point(h, "")) {
          lo := mid + 1;
        } else {
          hi := mid;
        }
      }
      BelowIsUnique(ring, h, lo);
    }

    method GetNode(key: string) returns (r: Result<string>)
      requires Valid()
      ensures ring == [] ==> r == Empty
      ensures ring != [] ==> FullOrder(ring, keyAt(key)) != [] && r == Ok(FullOrder(ring, keyAt(key))[0])
    {
      if ring == [] {
        return Empty;
      }
      var idx := BisectLeft(keyAt(key));
      FirstOwner(ring, keyAt(key));
      return Ok(ring[idx % |ring|].node);
    }

    method PreferenceList(key: string, replicas: int) returns (r: Result<seq<string>>)
      requires Valid()
      ensures var order := FullOrder(ring, keyAt(key));
              r == if replicas <= 0 then Invalid
                   else if ring == [] then Empty
                   else if replicas <= |order| then Ok(order[..replicas])
                   else Invalid
    {
      hide *;
      if replicas <= 0 {
        return Invalid;
      }
      if ring == [] {
        return Empty;
      }
      var start := BisectLeft(keyAt(key));
      ghost var walk := Clockwise(ring, keyAt(key));
      OrderIs(ring, keyAt(key));
      var owners: seq<string> := [];
      NoNodesYet(walk);
      for offset := 0 to |ring|
        invariant owners == Nodes(walk[..offset]) && |owners| < replicas
      {
        var node := ring[Around(start, offset, |ring|)].node;
        WrapAround(ring, keyAt(key), offset);
        NodesStep(walk, offset, offset + 1);
        if node !in owners {
          owners := owners + [node];
          if |owners| == replicas {
            EnoughNodes(walk, offset + 1, replicas);
            return Ok(owners);
          }
        }
      }
      assert walk[..|ring|] == walk;
      return Invalid;
    }

    lemma MembersHavePoints(n: string)
      requires Valid()
      ensures n in weights <==> exists i :: 0 <= i < |ring| && ring[i].node == n
    {
      hide Sorted;
      if n in weights {
        var p := Point(pointAt(n, 0), n);
        assert vnodes * weights[n] > 0;
        assert Points(pointAt, n, vnodes * weights[n])[0] == p;
        assert p in multiset(ring);
      }
      if i :| 0 <= i < |ring| && ring[i].node == n {
        assert ring[i] in multiset(ring);
      }
    }

    /** A key's full order is a permutation of the members. */
    lemma FullOrderIsPermutation(key: string)
      requires Valid()
      ensures forall n :: n in FullOrder(ring, keyAt(key)) <==> n in weights
      ensures |FullOrder(ring, keyAt(key))| == |weights|
    {
      hide Valid, Below;
      var order, walk := FullOrder(ring, keyAt(key)), Clockwise(ring, keyAt(key));
      var c := Below(ring, keyAt(key));
      forall n ensures n in order <==> n in weights {
        MembersHavePoints(n);
        if i :| 0 <= i < |ring| && ring[i].node == n {
          var k := if i < c then i + (|ring| - c) else i - c;
          assert walk[k] == ring[i];
        }
        if k :| 0 <= k < |walk| && walk[k].node == n {
          assert walk[k] == ring[if k < |ring| - c then k + c else k - (|ring| - c)];
        }
      }
      assert (set n | n in order) == weights.Keys;
      DistinctCount(order);
    }
  }

  lemma {:induction false} DistinctCount(names: seq<string>)
    requires forall i, j :: 0 <= i < j < |names| ==> names[i] != names[j]
    ensures |set n | n in names| == |names|
  {
    if names != [] {
      var k := |names| - 1;
      DistinctCount(names[..k]);
      assert names == names[..k] + [names[k]];
      assert (set n | n in names) == (set n | n in names[..k]) + {names[k]};
    }
  }

  lemma AddedPoints(ring: seq<Point>, pointAt: (string, nat) -> nat, vnodes: nat, weights: map<string, nat>,
                    node: string, weight: nat)
    requires Holds(ring, pointAt, vnodes, weights) && node !in weights
    ensures var r := InsertAll(ring, Points(pointAt, node, vnodes * weight));
            Holds(r, pointAt, vnodes, weights[node := weight]) && Without(r, node) == ring
  {
    hide PointLess, Sorted, InsertAll, Without, Points;
    var points := Points(pointAt, node, vnodes * weight);
    var r := InsertAll(ring, points);
    InsertAllSorted(ring, points);
    OnlyOwnPoints(pointAt, node, vnodes * weight);
    WithoutSorted(r, node);
    forall p ensures multiset(Without(r, node))[p] == multiset(ring)[p] {
      WithoutCounts(r, node, p);
      NotYetOnRing(ring, pointAt, vnodes, weights, node, p);
    }
    SameCounts(Without(r, node), ring);
    SortedIsCanonical(Without(r, node), ring);
    forall p ensures multiset(r)[p] == Expected(pointAt, vnodes, weights[node := weight], p) {
      assert multiset(ring)[p] == Expected(pointAt, vnodes, weights, p);
    }
  }

  lemma NotYetOnRing(ring: seq<Point>, pointAt: (string, nat) -> nat, vnodes: nat, weights: map<string, nat>,
                     node: string, p: Point)
    requires Holds(ring, pointAt, vnodes, weights) && node !in weights
    ensures p.node == node ==> multiset(ring)[p] == 0
  {
  }

  lemma SameCounts(a: seq<Point>, b: seq<Point>)
    requires forall p :: multiset(a)[p] == multiset(b)[p]
    ensures multiset(a) == multiset(b)
  {
  }

  lemma OnlyOwnPoints(pointAt: (string, nat) -> nat, node: string, count: nat)
    ensures forall p: Point :: p.node != node ==> multiset(Points(pointAt, node, count))[p] == 0
  {
    forall p: Point | p.node != node ensures multiset(Points(pointAt, node, count))[p] == 0 {
      assert p !in Points(pointAt, node, count);
    }
  }

  lemma RemovedPoints(ring: seq<Point>, pointAt: (string, nat) -> nat, vnodes: nat, weights: map<string, nat>,
                      node: string)
    requires Holds(ring, pointAt, vnodes, weights)
    ensures Holds(Without(ring, node), pointAt, vnodes, weights - {node})
  {
    hide PointLess;
    WithoutSorted(ring, node);
    forall p ensures multiset(Without(ring, node))[p] == Expected(pointAt, vnodes, weights - {node}, p) {
      WithoutCounts(ring, node, p);
      assert multiset(ring)[p] == Expected(pointAt, vnodes, weights, p);
    }
  }
}
