/** Vector clocks as the key-value cluster uses them, and the sibling sets they reconcile. */
module Versions {
  import opened Wrappers

  /** One counter per coordinator; a missing coordinator counts as zero. */
  type Clock = map<string, nat>

  function Counter(c: Clock, node: string): nat {
    if node in c then c[node] else 0
  }

  function Max(a: nat, b: nat): nat {
    if a >= b then a else b
  }

  /** Bump `node` past this clock and past `seen`, the highest counter the coordinator stores. */
  function Increment(c: Clock, node: string, seen: nat): Clock {
    c[node := Max(Counter(c, node), seen) + 1]
  }

  function Merge(a: Clock, b: Clock): Clock {
    map n | n in a.Keys + b.Keys :: Max(Counter(a, n), Counter(b, n))
  }

  predicate DescendsFrom(a: Clock, b: Clock) {
    forall n :: n in b ==> Counter(a, n) >= b[n]
  }

  predicate Dominates(a: Clock, b: Clock) {
    a != b && DescendsFrom(a, b)
  }

  /** Clocks start empty and only ever gain positive counters. */
  predicate Positive(c: Clock) {
    forall n :: n in c ==> c[n] > 0
  }

  lemma DescendsIsTransitive(a: Clock, b: Clock, c: Clock)
    requires DescendsFrom(a, b) && DescendsFrom(b, c)
    ensures DescendsFrom(a, c)
  {
    forall n | n in c ensures Counter(a, n) >= c[n] {
      assert Counter(b, n) >= c[n];
      assert n in b ==> Counter(a, n) >= b[n];
    }
  }

  /** On positive clocks descent is antisymmetric; a stored zero would break this. */
  lemma DescendsIsAntisymmetric(a: Clock, b: Clock)
    requires Positive(a) && Positive(b) && DescendsFrom(a, b) && DescendsFrom(b, a)
    ensures a == b
  {
    forall n ensures n in a <==> n in b {
      assert n in a ==> Counter(b, n) >= a[n] > 0;
      assert n in b ==> Counter(a, n) >= b[n] > 0;
    }
    forall n | n in a ensures a[n] == b[n] {
      assert Counter(b, n) >= a[n] && Counter(a, n) >= b[n];
    }
  }

  lemma DominatesIsTransitive(a: Clock, b: Clock, c: Clock)
    requires Positive(a) && Positive(b) && Positive(c) && Dominates(a, b) && Dominates(b, c)
    ensures Dominates(a, c)
  {
    DescendsIsTransitive(a, b, c);
    if a == c {
      DescendsIsAntisymmetric(a, b);
    }
  }

  /** `merge` is the least clock that descends from both. */
  lemma MergeIsLeastUpperBound(a: Clock, b: Clock, c: Clock)
    ensures DescendsFrom(Merge(a, b), a) && DescendsFrom(Merge(a, b), b)
    ensures DescendsFrom(c, Merge(a, b)) <==> DescendsFrom(c, a) && DescendsFrom(c, b)
    ensures Positive(a) && Positive(b) ==> Positive(Merge(a, b))
  {
    var m := Merge(a, b);
    if DescendsFrom(c, m) {
      forall n | n in a ensures Counter(c, n) >= a[n] { assert n in m; }
      forall n | n in b ensures Counter(c, n) >= b[n] { assert n in m; }
    }
    if DescendsFrom(c, a) && DescendsFrom(c, b) {
      forall n | n in m ensures Counter(c, n) >= m[n] {
        assert n in a ==> Counter(c, n) >= a[n];
        assert n in b ==> Counter(c, n) >= b[n];
      }
    }
  }

  /** A new version supersedes all its context saw and is dominated by nothing its coordinator stores. */
  lemma IncrementIsNew(context: Clock, node: string, seen: nat, other: Clock)
    requires Positive(context)
    ensures Positive(Increment(context, node, seen))
    ensures DescendsFrom(context, other) ==> Dominates(Increment(context, node, seen), other)
    ensures Counter(other, node) <= seen ==> !DescendsFrom(other, Increment(context, node, seen))
  {
    var next := Increment(context, node, seen);
    assert node in next && next[node] > seen && next[node] > Counter(context, node);
    if DescendsFrom(context, other) {
      forall n | n in other ensures Counter(next, n) >= other[n] {
        assert Counter(context, n) >= other[n];
      }
      assert node in other ==> Counter(context, node) >= other[node];
    }
  }

  // ---------------------------------------------------------------- siblings

  /** A value and the clock of the write that produced it; no value is a tombstone. */
  datatype Version = Version(value: Option<string>, clock: Clock)

  /** Drop every version that another one dominates. */
  function Reconcile(versions: set<Version>): (kept: set<Version>)
    ensures kept <= versions
  {
    set v | v in versions && forall o :: o in versions ==> !Dominates(o.clock, v.clock)
  }

  predicate AllPositive(versions: set<Version>) {
    forall v :: v in versions ==> Positive(v.clock)
  }

  /** `w` is at least as new as `v`. */
  predicate Covers(w: Version, v: Version) {
    w == v || Dominates(w.clock, v.clock)
  }

  lemma CoversIsTransitive(a: Version, b: Version, c: Version)
    requires Positive(a.clock) && Positive(b.clock) && Positive(c.clock) && Covers(a, b) && Covers(b, c)
    ensures Covers(a, c)
  {
    if a != b && b != c {
      DominatesIsTransitive(a.clock, b.clock, c.clock);
    }
  }

  ghost predicate Covered(versions: set<Version>, v: Version) {
    exists w :: w in versions && Covers(w, v)
  }

  ghost function Above(versions: set<Version>, v: Version): set<Version> {
    set o | o in versions && Dominates(o.clock, v.clock)
  }

  /** Whatever reconciliation drops, something it keeps is newer. */
  lemma {:induction false} ReconcileCovers(versions: set<Version>, v: Version)
    requires AllPositive(versions) && v in versions
    ensures Covered(Reconcile(versions), v)
    decreases |Above(versions, v)|
  {
    if v in Reconcile(versions) {
      assert Covers(v, v);
    } else {
      var o :| o in versions && Dominates(o.clock, v.clock);
      assert Above(versions, o) < Above(versions, v) by {
        forall x | x in Above(versions, o) ensures x in Above(versions, v) {
          DominatesIsTransitive(x.clock, o.clock, v.clock);
        }
        assert o in Above(versions, v) && o !in Above(versions, o);
      }
      SmallerSet(Above(versions, o), Above(versions, v));
      ReconcileCovers(versions, o);
      var w :| w in Reconcile(versions) && Covers(w, o);
      CoversIsTransitive(w, o, v);
    }
  }

  lemma SmallerSet(a: set<Version>, b: set<Version>)
    requires a < b
    ensures |a| < |b|
  {
    var x :| x in b && x !in a;
    assert a <= b - {x};
    SubsetSize(a, b - {x});
  }

  lemma {:induction false} SubsetSize(a: set<Version>, b: set<Version>)
    requires a <= b
    ensures |a| <= |b|
    decreases a
  {
    if x :| x in a {
      SubsetSize(a - {x}, b - {x});
    }
  }

  lemma CoveredStays(versions: set<Version>, more: set<Version>, v: Version)
    requires AllPositive(versions) && AllPositive(more) && Positive(v.clock)
    requires Covered(versions, v) && versions <= more
    ensures Covered(Reconcile(more), v)
  {
    var w :| w in versions && Covers(w, v);
    ReconcileCovers(more, w);
    var x :| x in Reconcile(more) && Covers(x, w);
    CoversIsTransitive(x, w, v);
  }

  /** Reconciling early loses nothing: merging replicas in any grouping gives the same siblings. */
  lemma ReconcileUnion(a: set<Version>, b: set<Version>)
    requires AllPositive(a) && AllPositive(b)
    ensures Reconcile(Reconcile(a) + b) == Reconcile(a + b)
  {
    forall v ensures v in Reconcile(Reconcile(a) + b) <==> v in Reconcile(a + b) {
      if v in Reconcile(Reconcile(a) + b) {
        forall o | o in a + b ensures !Dominates(o.clock, v.clock) {
          if o in a && Dominates(o.clock, v.clock) {
            ReconcileCovers(a, o);
            var w :| w in Reconcile(a) && Covers(w, o);
            if w != o {
              DominatesIsTransitive(w.clock, o.clock, v.clock);
            }
          }
        }
      }
      if v in Reconcile(a + b) {
        assert v in a ==> v in Reconcile(a);
      }
    }
  }

  lemma ReconcileIdempotent(a: set<Version>)
    ensures Reconcile(Reconcile(a)) == Reconcile(a)
  {
  }
}
