/** Consumer groups: range assignment, polling, committing, and what a committed offset means. */
module KafkaGroup {
  import opened StringOrder
  import opened KafkaLog
  import opened KafkaBroker
  import opened Wrappers

  // ---------------------------------------------------------------- range assignment

  ghost predicate SortedNames(s: seq<string>) {
    forall i, j :: 0 <= i < j < |s| ==> StrLess(s[i], s[j])
  }

  function Insert(s: seq<string>, n: string): (r: seq<string>)
    ensures forall x :: x in r <==> x in s || x == n
    ensures |r| == |s| + 1
  {
    if s == [] || StrLess(n, s[0]) then [n] + s else
      assert s == [s[0]] + s[1..];
      [s[0]] + Insert(s[1..], n)
  }

  lemma {:induction false} InsertSorts(s: seq<string>, n: string)
    requires SortedNames(s) && n !in s
    ensures SortedNames(Insert(s, n))
  {
    hide StrLess;
    if s != [] {
      Total(n, s[0]);
      if StrLess(n, s[0]) {
        forall i | 0 <= i < |s| ensures StrLess(n, s[i]) {
          if i > 0 {
            Transitive(n, s[0], s[i]);
          }
        }
      } else {
        var rest := Insert(s[1..], n);
        InsertSorts(s[1..], n);
        forall i | 0 <= i < |rest| ensures StrLess(s[0], rest[i]) {
          assert rest[i] in s[1..] || rest[i] == n;
        }
      }
    }
  }

  /** `sorted(members)`. */
  function Sorted(members: seq<string>): (r: seq<string>)
    ensures |r| == |members| && forall x :: x in r <==> x in members
  {
    if members == [] then [] else
      assert members == members[..|members| - 1] + [members[|members| - 1]];
      Insert(Sorted(members[..|members| - 1]), members[|members| - 1])
  }

  ghost predicate Distinct(members: seq<string>) {
    forall i, j :: 0 <= i < j < |members| ==> members[i] != members[j]
  }

  lemma {:induction false} SortedIsSorted(members: seq<string>)
    requires Distinct(members)
    ensures SortedNames(Sorted(members))
  {
    if members != [] {
      SortedIsSorted(members[..|members| - 1]);
      InsertSorts(Sorted(members[..|members| - 1]), members[|members| - 1]);
    }
  }

  /** Where member `i`'s range starts when the first `extra` ranges are one longer. */
  function Bound(i: nat, base: nat, extra: nat): nat {
    if i == 0 then 0 else Bound(i - 1, base, extra) + base + if i - 1 < extra then 1 else 0
  }

  lemma {:induction false} BoundIs(i: nat, base: nat, extra: nat)
    ensures Bound(i, base, extra) == i * base + if i < extra then i else extra
  {
    if i > 0 {
      BoundIs(i - 1, base, extra);
      assert i * base == (i - 1) * base + base;
    }
  }

  lemma BoundEnds(count: nat, n: nat)
    requires n > 0
    ensures Bound(n, count / n, count % n) == count
  {
    BoundIs(n, count / n, count % n);
  }

  lemma {:induction false} BoundGrows(i: nat, j: nat, base: nat, extra: nat)
    requires i <= j
    ensures Bound(i, base, extra) <= Bound(j, base, extra)
  {
    if i < j {
      BoundGrows(i, j - 1, base, extra);
    }
  }

  function Range(lo: nat, hi: nat): (r: seq<nat>)
    requires lo <= hi
    ensures |r| == hi - lo && forall k :: 0 <= k < |r| ==> r[k] == lo + k
  {
    seq(hi - lo, k requires 0 <= k => lo + k)
  }

  type Assignment = map<string, seq<nat>>

  /** The `i`-th member in name order gets the `i`-th range of the partitions. */
  ghost predicate RangeAssigned(a: Assignment, names: seq<string>, n: nat, base: nat, extra: nat) {
    && n <= |names|
    && (forall m :: m in a <==> m in names[..n])
    && forall i :: 0 <= i < n ==> names[i] in a && Owned(a[names[i]], Bound(i, base, extra), Bound(i + 1, base, extra))
  }

  ghost predicate Owned(ps: seq<nat>, lo: nat, hi: nat) {
    lo <= hi && ps == Range(lo, hi)
  }

  ghost predicate Owns(a: Assignment, m: string, p: nat) {
    m in a && p in a[m]
  }

  /** Every partition belongs to exactly one member, and no member lists one twice. */
  ghost predicate Covers(a: Assignment, count: nat) {
    && (forall m, p: nat :: Owns(a, m, p) ==> p < count)
    && (forall p: nat {:trigger HasOwner(a, p)} :: p < count ==> HasOwner(a, p))
    && (forall m, n, p: nat :: Owns(a, m, p) && Owns(a, n, p) ==> m == n)
    && forall m, j, k :: m in a && 0 <= j < k < |a[m]| ==> a[m][j] != a[m][k]
  }

  ghost predicate HasOwner(a: Assignment, p: nat) {
    exists m :: Owns(a, m, p)
  }

  /** No member has two partitions more than another. */
  ghost predicate Even(a: Assignment) {
    forall m, n :: m in a && n in a ==> |a[m]| <= |a[n]| + 1
  }

  lemma {:induction false} OwnerOf(n: nat, p: nat, base: nat, extra: nat) returns (i: nat)
    requires p < Bound(n, base, extra)
    ensures i < n && Bound(i, base, extra) <= p < Bound(i + 1, base, extra)
  {
    if p >= Bound(n - 1, base, extra) {
      i := n - 1;
    } else {
      i := OwnerOf(n - 1, p, base, extra);
    }
  }

  lemma OwnsRange(a: Assignment, names: seq<string>, base: nat, extra: nat, i: nat, next: nat)
    requires RangeAssigned(a, names, |names|, base, extra) && i < |names| && next == i + 1
    ensures names[i] in a && Bound(next, base, extra) == Bound(i, base, extra) + base + if i < extra then 1 else 0
    ensures a[names[i]] == Range(Bound(i, base, extra), Bound(next, base, extra))
    ensures forall p: nat :: Owns(a, names[i], p) <==> Bound(i, base, extra) <= p < Bound(next, base, extra)
  {
    hide Bound;
    BoundStep(i, next, base, extra);
    forall p: nat | Bound(i, base, extra) <= p < Bound(next, base, extra) ensures Owns(a, names[i], p) {
      assert a[names[i]][p - Bound(i, base, extra)] == p;
    }
  }

  lemma MemberIndex(a: Assignment, names: seq<string>, base: nat, extra: nat, m: string) returns (i: nat)
    requires RangeAssigned(a, names, |names|, base, extra) && m in a
    ensures i < |names| && names[i] == m
  {
    assert names[..|names|] == names;
    i :| 0 <= i < |names| && names[i] == m;
  }

  lemma OneOwner(a: Assignment, names: seq<string>, base: nat, extra: nat, m: string, o: string, p: nat)
    requires RangeAssigned(a, names, |names|, base, extra) && Owns(a, m, p) && Owns(a, o, p)
    ensures m == o
  {
    hide Bound, RangeAssigned, Owns;
    OwnsInList(a, m, p);
    OwnsInList(a, o, p);
    var i := MemberIndex(a, names, base, extra, m);
    var j := MemberIndex(a, names, base, extra, o);
    OwnsRange(a, names, base, extra, i, i + 1);
    OwnsRange(a, names, base, extra, j, j + 1);
    if i < j {
      BoundGrows(i + 1, j, base, extra);
    } else if j < i {
      BoundGrows(j + 1, i, base, extra);
    }
  }

  /** The range assignment gives every partition to exactly one member. */
  lemma AssignedCovers(a: Assignment, names: seq<string>, count: nat)
    requires names != [] && RangeAssigned(a, names, |names|, count / |names|, count % |names|)
    ensures Covers(a, count)
  {
    var n := |names|;
    var base, extra := count / n, count % n;
    BoundEnds(count, n);
    hide Bound, RangeAssigned, Owns, HasOwner;
    forall m, p: nat | Owns(a, m, p) ensures p < count {
      OwnsInList(a, m, p);
      var i := MemberIndex(a, names, base, extra, m);
      OwnsRange(a, names, base, extra, i, i + 1);
      BoundGrows(i + 1, n, base, extra);
    }
    forall p: nat {:trigger HasOwner(a, p)} | p < count ensures HasOwner(a, p) {
      var i := OwnerOf(n, p, base, extra);
      OwnsRange(a, names, base, extra, i, i + 1);
      OwnerFound(a, names[i], p);
    }
    forall m, o, p: nat | Owns(a, m, p) && Owns(a, o, p) ensures m == o {
      OneOwner(a, names, base, extra, m, o, p);
    }
    forall m, j, k | m in a && 0 <= j < k < |a[m]| ensures a[m][j] != a[m][k] {
      var i := MemberIndex(a, names, base, extra, m);
      OwnsRange(a, names, base, extra, i, i + 1);
    }
  }

  lemma AssignedEvenly(a: Assignment, names: seq<string>, base: nat, extra: nat)
    requires RangeAssigned(a, names, |names|, base, extra)
    ensures Even(a)
  {
    hide Bound, RangeAssigned;
    forall m, o | m in a && o in a ensures |a[m]| <= |a[o]| + 1 {
      var i := MemberIndex(a, names, base, extra, m);
      var j := MemberIndex(a, names, base, extra, o);
      OwnsRange(a, names, base, extra, i, i + 1);
      OwnsRange(a, names, base, extra, j, j + 1);
    }
  }

  lemma OwnsInList(a: Assignment, m: string, p: nat)
    requires Owns(a, m, p)
    ensures m in a
  {
  }

  lemma OwnerFound(a: Assignment, m: string, p: nat)
    requires Owns(a, m, p)
    ensures HasOwner(a, p)
  {
  }

  lemma BoundStep(i: nat, next: nat, base: nat, extra: nat)
    requires next == i + 1
    ensures Bound(next, base, extra) == Bound(i, base, extra) + base + if i < extra then 1 else 0
  {
  }

  // ---------------------------------------------------------------- one fetch

  /** Where a reader without a position starts: the committed offset, or the reset policy's end of the log. */
  function StartOffset(l: Log, committed: Option<nat>, earliest: bool): nat {
    if committed.Some? then committed.value else if earliest then l.start else l.end
  }

  datatype Fetched = Fetched(records: seq<Record>, position: nat) | Stuck

  /** One partition of a poll: read on from the position, or from the start offset when there is
      none or retention has overtaken it. */
  function FetchOne(l: Log, committed: Option<nat>, earliest: bool, position: Option<nat>, limit: nat): Fetched {
    var p := position.GetOr(StartOffset(l, committed, earliest));
    var q := if p < l.start then StartOffset(l, committed, earliest) else p;
    if q < l.start then Stuck
    else
      var records := FirstN(From(l.records, q), limit);
      Fetched(records, if records != [] then records[|records| - 1].offset + 1 else q)
  }

  /** A fetch fails exactly when retention has passed the committed offset and the reader has no
      position it could still read from. */
  lemma StuckWhen(l: Log, committed: Option<nat>, earliest: bool, position: Option<nat>, limit: nat)
    requires LogOk(l)
    ensures FetchOne(l, committed, earliest, position, limit).Stuck? <==>
              committed.Some? && committed.value < l.start && (position.None? || position.value < l.start)
  {
  }

  type Seen = set<(nat, nat)>  // partition and offset of every record a poll has returned

  ghost function Offsets(p: nat, records: seq<Record>): Seen {
    set i | 0 <= i < |records| :: (p, records[i].offset)
  }

  /** Whatever is left in the log below an offset has been returned by a poll. */
  ghost predicate Covered(l: Log, p: nat, upto: nat, seen: Seen) {
    upto <= l.end && forall r :: r in l.records && r.offset < upto ==> (p, r.offset) in seen
  }

  /** A fetch from a covered position moves it to a covered position. */
  lemma FetchCovers(l: Log, p: nat, committed: Option<nat>, earliest: bool, position: Option<nat>, limit: nat,
                    seen: Seen)
    requires LogOk(l) && earliest && limit > 0
    requires committed.Some? ==> Covered(l, p, committed.value, seen)
    requires position.Some? ==> Covered(l, p, position.value, seen)
    ensures var f := FetchOne(l, committed, earliest, position, limit);
            f.Fetched? ==> Covered(l, p, f.position, seen + Offsets(p, f.records))
  {
    var f := FetchOne(l, committed, earliest, position, limit);
    NothingBelowStart(l, p, seen);
    hide From, FirstN, LogOk;
    if f.Fetched? {
      var q0 := position.GetOr(StartOffset(l, committed, earliest));
      var q := if q0 < l.start then StartOffset(l, committed, earliest) else q0;
      assert Covered(l, p, q, seen);
      ReadCovers(l, p, q, limit, seen);
    }
  }

  lemma NothingBelowStart(l: Log, p: nat, seen: Seen)
    requires LogOk(l)
    ensures Covered(l, p, l.start, seen)
  {
  }

  lemma ReadCovers(l: Log, p: nat, q: nat, limit: nat, seen: Seen)
    requires LogOk(l) && Covered(l, p, q, seen)
    ensures var records := FirstN(From(l.records, q), limit);
            Covered(l, p, if records != [] then records[|records| - 1].offset + 1 else q, seen + Offsets(p, records))
  {
    var records := FirstN(From(l.records, q), limit);
    ReadIsOrdered(l, q, limit);
    hide From, FirstN, LogOk, Offsets;
    if records != [] {
      forall r | r in l.records && r.offset < records[|records| - 1].offset + 1
        ensures (p, r.offset) in seen + Offsets(p, records) {
        if r.offset >= q {
          assert r in records;
          InOffsets(p, records, r);
        }
      }
    }
  }

  lemma InOffsets(p: nat, records: seq<Record>, r: Record)
    requires r in records
    ensures (p, r.offset) in Offsets(p, records)
  {
    var i :| 0 <= i < |records| && records[i] == r;
  }

  /** A read returns records of the log that are not below the offset, and every such record up to its last. */
  lemma ReadIsOrdered(l: Log, q: nat, limit: nat)
    requires LogOk(l)
    ensures var records := FirstN(From(l.records, q), limit);
            && (forall i :: 0 <= i < |records| ==> records[i] in l.records && q <= records[i].offset < l.end)
            && (records != [] ==>
                forall r :: r in l.records && q <= r.offset <= records[|records| - 1].offset ==> r in records)
            && forall i, j :: 0 <= i < j < |records| ==> records[i].offset < records[j].offset
  {
    var rest := From(l.records, q);
    var records := FirstN(rest, limit);
    FromMembers(l.records, q);
    FromRises(l.records, q);
    hide From;
    forall i | 0 <= i < |records| ensures records[i] in l.records && q <= records[i].offset < l.end {
      assert records[i] == rest[i] && rest[i] in rest;
    }
    if records != [] {
      forall r | r in l.records && q <= r.offset <= records[|records| - 1].offset ensures r in records {
        UpToLast(rest, limit, r);
      }
    }
  }

  lemma UpToLast(rest: seq<Record>, limit: nat, r: Record)
    requires Rising(rest) && r in rest && FirstN(rest, limit) != [] &&
             r.offset <= FirstN(rest, limit)[|FirstN(rest, limit)| - 1].offset
    ensures r in FirstN(rest, limit)
  {
    var records := FirstN(rest, limit);
    var i :| 0 <= i < |rest| && rest[i] == r;
    assert i < |records| && records[i] == r;
  }

  lemma FromRises(records: seq<Record>, offset: int)
    requires Rising(records)
    ensures Rising(From(records, offset))
  {
  }

  /** Appends, compactions and expiries by anybody keep what is covered covered. */
  lemma StaysCovered(l: Log, l': Log, p: nat, upto: nat, seen: Seen)
    requires Covered(l, p, upto, seen) && Grows(l, l')
    ensures Covered(l', p, upto, seen)
  {
  }

  // ---------------------------------------------------------------- one poll

  datatype Run = Run(out: seq<Record>, positions: map<(string, nat), nat>, seen: Seen, stuck: bool)

  ghost function At(m: map<(string, nat), nat>, member: string, p: nat): Option<nat> {
    if (member, p) in m then Some(m[(member, p)]) else None
  }

  /** A poll, after the first `n` of the member's partitions. */
  ghost function PollUpTo(logs: seq<Log>, committed: nat -> Option<nat>, earliest: bool,
                          positions: map<(string, nat), nat>,
                          member: string, parts: seq<nat>, n: nat, max: int): Run
    requires n <= |parts| && forall k :: 0 <= k < |parts| ==> parts[k] < |logs|
  {
    if n == 0 then Run([], positions, {}, false) else
      var run := PollUpTo(logs, committed, earliest, positions, member, parts, n - 1, max);
      if run.stuck || |run.out| >= max then run else
        var p := parts[n - 1];
        match FetchOne(logs[p], committed(p), earliest, At(run.positions, member, p), max - |run.out|)
        case Stuck => run.(stuck := true)
        case Fetched(records, position) =>
          Run(run.out + records, run.positions[(member, p) := position], run.seen + Offsets(p, records), false)
  }

  /** A group's progress: what lies below its committed offsets and its members' positions has
      been returned by a poll, or is no longer in the log. */
  ghost predicate Progress(logs: seq<Log>, committed: nat -> Option<nat>, positions: map<(string, nat), nat>,
                           seen: Seen) {
    && (forall p {:trigger committed(p)} :: 0 <= p < |logs| && committed(p).Some? ==>
          Covered(logs[p], p, committed(p).value, seen))
    && forall k :: k in positions ==> k.1 < |logs| && Covered(logs[k.1], k.1, positions[k], seen)
  }

  lemma ProgressSeen(logs: seq<Log>, committed: nat -> Option<nat>, positions: map<(string, nat), nat>, seen: Seen,
                     more: Seen)
    requires Progress(logs, committed, positions, seen)
    ensures Progress(logs, committed, positions, seen + more)
  {
  }

  /** If what a poll read counts as returned, nothing between its old and new positions is skipped. */
  lemma {:induction false} PollProgress(logs: seq<Log>, committed: nat -> Option<nat>,
                                        positions: map<(string, nat), nat>,
                                        seen: Seen, member: string, parts: seq<nat>, n: nat, max: int)
    requires n <= |parts| && forall k :: 0 <= k < |parts| ==> parts[k] < |logs|
    requires (forall p :: 0 <= p < |logs| ==> LogOk(logs[p])) && Progress(logs, committed, positions, seen)
    ensures var run := PollUpTo(logs, committed, true, positions, member, parts, n, max);
            Progress(logs, committed, run.positions, seen + run.seen)
  {
    hide Covered, FetchOne, LogOk, Progress;
    if n == 0 {
      assert seen + {} == seen;
    } else {
      var run := PollUpTo(logs, committed, true, positions, member, parts, n - 1, max);
      PollProgress(logs, committed, positions, seen, member, parts, n - 1, max);
      if !run.stuck && |run.out| < max {
        FetchProgress(logs, committed, run.positions, seen + run.seen, member, parts[n - 1], max - |run.out|);
        var f := FetchOne(logs[parts[n - 1]], committed(parts[n - 1]), true, At(run.positions, member, parts[n - 1]),
                          max - |run.out|);
        if f.Fetched? {
          assert seen + run.seen + Offsets(parts[n - 1], f.records) ==
                 seen + (run.seen + Offsets(parts[n - 1], f.records));
        }
      }
    }
  }

  lemma FetchProgress(logs: seq<Log>, committed: nat -> Option<nat>, positions: map<(string, nat), nat>, seen: Seen,
                      member: string, p: nat, limit: nat)
    requires p < |logs| && LogOk(logs[p]) && Progress(logs, committed, positions, seen) && limit > 0
    ensures var f := FetchOne(logs[p], committed(p), true, At(positions, member, p), limit);
            f.Fetched? ==> Progress(logs, committed, positions[(member, p) := f.position], seen + Offsets(p, f.records))
  {
    hide Covered, FetchOne, LogOk;
    FetchCovers(logs[p], p, committed(p), true, At(positions, member, p), limit, seen);
    var f := FetchOne(logs[p], committed(p), true, At(positions, member, p), limit);
    if f.Fetched? {
      ProgressSeen(logs, committed, positions, seen, Offsets(p, f.records));
    }
  }

  /** Without retention no poll fails. */
  lemma {:induction false} PollSucceeds(logs: seq<Log>, committed: nat -> Option<nat>, earliest: bool,
                                        positions: map<(string, nat), nat>,
                                        member: string, parts: seq<nat>, n: nat, max: int)
    requires n <= |parts| && forall k :: 0 <= k < |parts| ==> parts[k] < |logs|
    requires forall p :: 0 <= p < |logs| ==> LogOk(logs[p]) && logs[p].start == 0
    ensures !PollUpTo(logs, committed, earliest, positions, member, parts, n, max).stuck
  {
    hide From, FirstN;
    if n > 0 {
      var run := PollUpTo(logs, committed, earliest, positions, member, parts, n - 1, max);
      PollSucceeds(logs, committed, earliest, positions, member, parts, n - 1, max);
      var p := parts[n - 1];
      if |run.out| < max {
        StuckWhen(logs[p], committed(p), earliest, At(run.positions, member, p), max - |run.out|);
      }
      hide LogOk, FetchOne;
    }
  }

  /** Progress survives whatever others do to the logs. */
  lemma ProgressStays(logs: seq<Log>, logs': seq<Log>, committed: nat -> Option<nat>,
                      positions: map<(string, nat), nat>, seen: Seen)
    requires Progress(logs, committed, positions, seen) && |logs'| == |logs|
    requires forall p :: 0 <= p < |logs| ==> Grows(logs[p], logs'[p])
    ensures Progress(logs', committed, positions, seen)
  {
    hide Grows;
    forall p {:trigger committed(p)} | 0 <= p < |logs'| && committed(p).Some?
      ensures Covered(logs'[p], p, committed(p).value, seen) {
      StaysCovered(logs[p], logs'[p], p, committed(p).value, seen);
    }
    forall k | k in positions ensures Covered(logs'[k.1], k.1, positions[k], seen) {
      StaysCovered(logs[k.1], logs'[k.1], k.1, positions[k], seen);
    }
  }

  // ---------------------------------------------------------------- the group

  ghost function LogsAt(s: Logs, topic: string): seq<Log> {
    if topic in s then s[topic] else []
  }

  ghost function CommittedAt(committed: map<Slot, nat>, group: string, topic: string): nat -> Option<nat> {
    p => if (group, topic, p) in committed then Some(committed[(group, topic, p)]) else None
  }

  /** What a group's own tables must satisfy against a state of the broker. */
  ghost predicate Sound(s: Logs, topic: string, committed: nat -> Option<nat>, members: seq<string>,
                        assignment: Assignment,
                        positions: map<(string, nat), nat>, earliest: bool, seen: Seen)
  {
    && Distinct(members)
    && (assignment == map[] || (topic in s && Covers(assignment, |s[topic]|) &&
                                forall m :: m in assignment <==> m in members))
    && (earliest ==> Progress(LogsAt(s, topic), committed, positions, seen))
    && forall k :: k in positions ==> k.1 < |LogsAt(s, topic)| && positions[k] <= LogsAt(s, topic)[k.1].end
  }

  /** A group stays sound whatever producers, other groups, compaction and retention do to the broker. */
  lemma OthersAreHarmless(s: Logs, s': Logs, topic: string, committed: nat -> Option<nat>, members: seq<string>,
                          assignment: Assignment, positions: map<(string, nat), nat>, earliest: bool, seen: Seen)
    requires Sound(s, topic, committed, members, assignment, positions, earliest, seen) && AllGrow(s, s')
    requires topic !in s ==> forall p :: committed(p).None?
    ensures Sound(s', topic, committed, members, assignment, positions, earliest, seen)
  {
    if topic in s {
      forall p | 0 <= p < |s[topic]| ensures Grows(s[topic][p], s'[topic][p]) && s[topic][p].end <= s'[topic][p].end {
      }
      hide Grows, Covers;
      if earliest {
        ProgressStays(s[topic], s'[topic], committed, positions, seen);
      }
    }
  }

  lemma SortedApart(names: seq<string>)
    requires SortedNames(names)
    ensures Distinct(names)
  {
    forall i, j | 0 <= i < j < |names| ensures names[i] != names[j] {
      Irreflexive(names[i]);
    }
  }

  lemma NoneRanged(names: seq<string>, base: nat, extra: nat)
    ensures Bound(0, base, extra) == 0 && RangeAssigned(map[], names, 0, base, extra)
  {
  }

  lemma RangedNext(a: Assignment, names: seq<string>, i: nat, next: nat, base: nat, extra: nat, lo: nat, hi: nat)
    requires Distinct(names) && i < |names| && next == i + 1 && RangeAssigned(a, names, i, base, extra)
    requires lo == Bound(i, base, extra) <= hi == Bound(next, base, extra)
    ensures RangeAssigned(a[names[i] := Range(lo, hi)], names, next, base, extra)
  {
    hide Bound, Range, Owned;
    assert names[..next] == names[..i] + [names[i]];
    assert Owned(Range(lo, hi), lo, hi) by {
      OwnedRange(lo, hi);
    }
    forall j | 0 <= j < i ensures names[j] != names[i] {
    }
  }

  lemma OwnedRange(lo: nat, hi: nat)
    requires lo <= hi
    ensures Owned(Range(lo, hi), lo, hi)
  {
  }

  lemma OneMoreMember(members: seq<string>, member: string)
    requires Distinct(members) && member !in members
    ensures Distinct(members + [member])
  {
  }

  /** `list.remove`. */
  function Removed(members: seq<string>, member: string): (r: seq<string>)
    ensures forall m :: m in r ==> m in members
  {
    if members == [] then [] else if members[0] == member then members[1..]
       else [members[0]] + Removed(members[1..], member)
  }

  lemma {:induction false} OneMemberLess(members: seq<string>, member: string)
    requires Distinct(members)
    ensures Distinct(Removed(members, member))
    ensures forall m :: m in Removed(members, member) <==> m in members && m != member
  {
    if members != [] {
      var rest := Removed(members[1..], member);
      OneMemberLess(members[1..], member);
      assert members == [members[0]] + members[1..];
      forall j | 0 <= j < |rest| ensures rest[j] != members[0] {
        assert rest[j] in members[1..];
      }
    }
  }

  /** A rebalance forgets the positions and nothing else. */
  lemma RebalancedIsSound(s: Logs, topic: string, committed: nat -> Option<nat>, members: seq<string>,
                          assignment: Assignment,
                          positions: map<(string, nat), nat>, earliest: bool, seen: Seen, members': seq<string>,
                          assignment': Assignment)
    requires Sound(s, topic, committed, members, assignment, positions, earliest, seen) && Distinct(members') &&
             topic in s
    requires if members' == [] then assignment' == map[]
             else Covers(assignment', |s[topic]|) && forall m :: m in assignment' <==> m in members'
    ensures Sound(s, topic, committed, members', assignment', map[], earliest, seen)
  {
    hide Covers, Covered;
  }

  lemma NoTopicIsSound(s: Logs, topic: string, committed: nat -> Option<nat>, members: seq<string>,
                       assignment: Assignment,
                       positions: map<(string, nat), nat>, earliest: bool, seen: Seen, members': seq<string>)
    requires Sound(s, topic, committed, members, assignment, positions, earliest, seen) && Distinct(members') &&
             topic !in s
    ensures assignment == map[] && Sound(s, topic, committed, members', assignment, positions, earliest, seen)
  {
  }

  /** A fetch ends within the log. */
  lemma FetchEnds(l: Log, committed: Option<nat>, earliest: bool, position: Option<nat>, limit: nat)
    requires LogOk(l) && (committed.Some? ==> committed.value <= l.end) && (position.Some? ==> position.value <= l.end)
    ensures var f := FetchOne(l, committed, earliest, position, limit); f.Fetched? ==> f.position <= l.end
  {
    var f := FetchOne(l, committed, earliest, position, limit);
    if f.Fetched? && f.records != [] {
      FromMembers(l.records, if position.Some? && position.value >= l.start then position.value
                  else StartOffset(l, committed, earliest));
      assert f.records[|f.records| - 1] in l.records;
    }
  }

  ghost predicate InLogs(logs: seq<Log>, positions: map<(string, nat), nat>) {
    forall k :: k in positions ==> k.1 < |logs| && positions[k] <= logs[k.1].end
  }

  lemma {:induction false} PollStaysInLogs(logs: seq<Log>, committed: nat -> Option<nat>, earliest: bool,
                                           positions: map<(string, nat), nat>,
                                           member: string, parts: seq<nat>, n: nat, max: int)
    requires n <= |parts| && forall k :: 0 <= k < |parts| ==> parts[k] < |logs|
    requires InLogs(logs, positions) && forall p :: 0 <= p < |logs| ==> LogOk(logs[p])
    requires forall p {:trigger committed(p)} :: 0 <= p < |logs| && committed(p).Some? ==>
               committed(p).value <= logs[p].end
    ensures InLogs(logs, PollUpTo(logs, committed, earliest, positions, member, parts, n, max).positions)
  {
    hide LogOk, FetchOne, InLogs;
    if n > 0 {
      var run := PollUpTo(logs, committed, earliest, positions, member, parts, n - 1, max);
      PollStaysInLogs(logs, committed, earliest, positions, member, parts, n - 1, max);
      if !run.stuck && |run.out| < max {
        FetchStaysInLogs(logs, committed, earliest, run.positions, member, parts[n - 1], max - |run.out|);
      }
    }
  }

  lemma FetchStaysInLogs(logs: seq<Log>, committed: nat -> Option<nat>, earliest: bool,
                         positions: map<(string, nat), nat>,
                         member: string, p: nat, limit: nat)
    requires p < |logs| && InLogs(logs, positions) && LogOk(logs[p])
    requires committed(p).Some? ==> committed(p).value <= logs[p].end
    ensures var f := FetchOne(logs[p], committed(p), earliest, At(positions, member, p), limit);
            f.Fetched? ==> InLogs(logs, positions[(member, p) := f.position])
  {
    hide LogOk, FetchOne;
    FetchEnds(logs[p], committed(p), earliest, At(positions, member, p), limit);
  }

  /** A poll leaves the group sound, unless it failed half-way while resetting to "earliest". */
  lemma PolledIsSound(s: Logs, topic: string, committed: nat -> Option<nat>, members: seq<string>,
                      assignment: Assignment,
                      positions: map<(string, nat), nat>, earliest: bool, seen: Seen, member: string, max: int)
    requires Sound(s, topic, committed, members, assignment, positions, earliest, seen) && member in assignment
    requires forall p :: 0 <= p < |LogsAt(s, topic)| ==> LogOk(LogsAt(s, topic)[p])
    requires forall p {:trigger committed(p)} :: 0 <= p < |LogsAt(s, topic)| && committed(p).Some? ==>
               committed(p).value <= LogsAt(s, topic)[p].end
    ensures forall k :: 0 <= k < |assignment[member]| ==> assignment[member][k] < |LogsAt(s, topic)|
    ensures var run := PollUpTo(LogsAt(s, topic), committed, earliest, positions, member, assignment[member],
                                |assignment[member]|, max);
            && (!(earliest && run.stuck) ==>
                  Sound(s, topic, committed, members, assignment, run.positions, earliest, if run.stuck then seen
                        else seen + run.seen))
            && ((forall p :: 0 <= p < |LogsAt(s, topic)| ==> LogsAt(s, topic)[p].start == 0) ==> !run.stuck)
  {
    var logs, parts := LogsAt(s, topic), assignment[member];
    forall k | 0 <= k < |parts| ensures parts[k] < |logs| {
      assert Owns(assignment, member, parts[k]);
    }
    hide Covers, Progress, LogOk;
    PollStaysInLogs(logs, committed, earliest, positions, member, parts, |parts|, max);
    if earliest {
      PollProgress(logs, committed, positions, seen, member, parts, |parts|, max);
    }
    if forall p :: 0 <= p < |logs| ==> logs[p].start == 0 {
      PollSucceeds(logs, committed, earliest, positions, member, parts, |parts|, max);
    }
    hide PollUpTo;
  }

  /** The committed offsets after a member committed the first `n` of its partitions. */
  ghost function CommitUpTo(committed: map<Slot, nat>, group: string, topic: string, positions: map<(string, nat), nat>,
                            member: string, parts: seq<nat>, n: nat): map<Slot, nat>
    requires n <= |parts|
  {
    if n == 0 then committed else
      var before := CommitUpTo(committed, group, topic, positions, member, parts, n - 1);
      var k := (member, parts[n - 1]);
      if k in positions then before[(group, topic, parts[n - 1]) := positions[k]] else before
  }

  /** After a commit every partition of the member stands at its position; everything else stays. */
  lemma {:induction false} CommitSets(committed: map<Slot, nat>, group: string, topic: string,
                                      positions: map<(string, nat), nat>,
                                      member: string, parts: seq<nat>, n: nat, k: Slot)
    requires n <= |parts|
    ensures var after := CommitUpTo(committed, group, topic, positions, member, parts, n);
            if k.0 == group && k.1 == topic && k.2 in parts[..n] && (member, k.2) in positions
            then k in after && after[k] == positions[(member, k.2)]
            else (k in after <==> k in committed) && (k in after ==> after[k] == committed[k])
  {
    if n > 0 {
      CommitSets(committed, group, topic, positions, member, parts, n - 1, k);
      assert parts[..n] == parts[..n - 1] + [parts[n - 1]];
    }
  }

  lemma CommittedIsSound(s: Logs, topic: string, was: map<Slot, nat>, group: string, members: seq<string>,
                         assignment: Assignment,
                         positions: map<(string, nat), nat>, earliest: bool, seen: Seen, member: string, n: nat)
    requires Sound(s, topic, CommittedAt(was, group, topic), members, assignment, positions, earliest, seen)
    requires member in assignment && n <= |assignment[member]|
    ensures var after := CommitUpTo(was, group, topic, positions, member, assignment[member], n);
            Sound(s, topic, CommittedAt(after, group, topic), members, assignment, positions, earliest, seen)
  {
    hide Covers, Covered;
    var after := CommitUpTo(was, group, topic, positions, member, assignment[member], n);
    var now, before := CommittedAt(after, group, topic), CommittedAt(was, group, topic);
    forall p: nat ensures now(p) == before(p) ||
           (now(p).Some? && (member, p) in positions && now(p).value == positions[(member, p)]) {
      CommitSets(was, group, topic, positions, member, assignment[member], n, (group, topic, p));
    }
  }

  /** What a committed offset stands for, when readers start from the beginning: every record
      below it that is still in the log has been returned by a poll. */
  lemma CommittedIsReceived(s: Logs, topic: string, committed: nat -> Option<nat>, members: seq<string>,
                            assignment: Assignment,
                            positions: map<(string, nat), nat>, seen: Seen, p: nat, r: Record)
    requires Sound(s, topic, committed, members, assignment, positions, true, seen)
    requires topic in s && p < |s[topic]| && r in s[topic][p].records && committed(p).Some? &&
             r.offset < committed(p).value
    ensures (p, r.offset) in seen
  {
    assert Covered(s[topic][p], p, committed(p).value, seen);
  }

  class ConsumerGroup {
    const broker: Broker
    const groupId: string
    const topic: string
    const earliest: bool
    var members: seq<string>
    var assignment: Assignment
    var positions: map<(string, nat), nat>
    var generation: nat
    ghost var seen: Seen

    ghost predicate Valid()
      reads this, broker, broker.parts
    {
      broker.Valid() && Sound(broker.Snap(), topic, CommittedAt(broker.committed, groupId, topic), members, assignment,
                              positions, earliest, seen)
    }

    lemma Unpack()
      requires Valid()
      ensures broker.Valid() && broker.Structure() && broker.Snap().Keys == broker.topics.Keys
      ensures Sound(broker.Snap(), topic, CommittedAt(broker.committed, groupId, topic), members, assignment, positions,
                    earliest, seen)
    {
    }

    lemma Repack()
      requires broker.Valid()
      requires Sound(broker.Snap(), topic, CommittedAt(broker.committed, groupId, topic), members, assignment,
                     positions, earliest, seen)
      ensures Valid()
    {
    }

    /** `history` is what earlier members under this group id had received before they committed. */
    constructor (broker: Broker, groupId: string, topic: string, earliest: bool, ghost history: Seen)
      requires broker.Valid()
      requires earliest ==>
                 Progress(LogsAt(broker.Snap(), topic), CommittedAt(broker.committed, groupId, topic), map[], history)
      ensures Valid() && this.broker == broker && this.groupId == groupId && this.topic == topic &&
              this.earliest == earliest
      ensures members == [] && assignment == map[] && positions == map[] && generation == 0 && seen == history
    {
      this.broker, this.groupId, this.topic, this.earliest := broker, groupId, topic, earliest;
      members, assignment, positions, generation, seen := [], map[], map[], 0, history;
    }

    /** Hand the partitions out anew; every member starts again from the committed offsets.
        False when the topic does not exist: then nothing changes. */
    method Rebalance() returns (ok: bool)
      requires broker.Valid() && Distinct(members)
      modifies this`assignment, this`positions, this`generation
      ensures ok == (topic in broker.topics)
      ensures !ok ==> assignment == old(assignment) && positions == old(positions) && generation == old(generation)
      ensures ok ==>
                positions == map[] && generation == old(generation) + 1 && forall m :: m in assignment <==> m in members
      ensures ok && members == [] ==> assignment == map[]
      ensures ok && members != [] ==>
                RangeAssigned(assignment, Sorted(members), |members|, |broker.topics[topic]| / |members|,
                              |broker.topics[topic]| % |members|)
      ensures ok && members != [] ==> Covers(assignment, |broker.topics[topic]|) && Even(assignment)
    {
      hide Bound, Sorted, Range, Covers, Even, SortedNames, StrLess;
      if topic !in broker.topics {
        return false;
      }
      var count, names := |broker.topics[topic]|, Sorted(members);
      SortedIsSorted(members);
      SortedApart(names);
      var base, extra := count, 0;
      if names != [] {
        base, extra := count / |names|, count % |names|;
      }
      var fresh' := RangesFor(names, base, extra);
      if names != [] {
        AssignedCovers(fresh', names, count);
        AssignedEvenly(fresh', names, base, extra);
      }
      assert names[..|names|] == names;
      assignment, positions, generation := fresh', map[], generation + 1;
      return true;
    }

    method RangesFor(names: seq<string>, base: nat, extra: nat) returns (a: Assignment)
      requires Distinct(names)
      ensures RangeAssigned(a, names, |names|, base, extra)
    {
      hide Bound, Range;
      a := map[];
      var lo := 0;
      NoneRanged(names, base, extra);
      for i := 0 to |names|
        invariant lo == Bound(i, base, extra) && RangeAssigned(a, names, i, base, extra)
      {
        var hi := lo + base + if i < extra then 1 else 0;
        BoundStep(i, i + 1, base, extra);
        RangedNext(a, names, i, i + 1, base, extra, lo, hi);
        a := a[names[i] := Range(lo, hi)];
        lo := hi;
      }
    }

    /** A member that fails to join because the topic is missing is on the list all the same. */
    method Join(member: string) returns (r: Result<seq<nat>>)
      requires Valid()
      modifies this
      ensures Valid() && seen == old(seen)
      ensures member in old(members) ==>
                r == Conflict && members == old(members) && assignment == old(assignment) && positions == old(positions)
      ensures member !in old(members) ==> members == old(members) + [member]
      ensures member !in old(members) && topic !in broker.topics ==> r == NotFound && assignment == map[]
      ensures member !in old(members) && topic in broker.topics ==>
                && member in assignment && r == Ok(assignment[member]) &&
                   (forall m :: m in assignment <==> m in members)
                && Covers(assignment, |broker.topics[topic]|) && Even(assignment) && positions == map[]
    {
      hide *;
      Unpack();
      if member in members {
        return Conflict;
      }
      SoundMembers();
      OneMoreMember(members, member);
      members := members + [member];
      var ok := Rebalance();
      if !ok {
        NoTopicIsSound(broker.Snap(), topic, CommittedAt(broker.committed, groupId, topic), old(members), assignment,
                       positions,
                       earliest, seen, members);
        Repack();
        return NotFound;
      }
      RebalancedIsSound(broker.Snap(), topic, CommittedAt(broker.committed, groupId, topic), old(members),
                        old(assignment), old(positions),
                        earliest, seen, members, assignment);
      Repack();
      return Ok(assignment[member]);
    }

    lemma SoundMembers()
      requires Valid()
      ensures Distinct(members) && (assignment == map[] || forall m :: m in assignment <==> m in members)
      ensures assignment != map[] ==> topic in broker.topics && topic in broker.Snap()
    {
    }

    /** A clean leave or a missed heartbeat: the others share the partitions out anew. */
    method Leave(member: string) returns (r: Result<()>)
      requires Valid()
      modifies this
      ensures Valid() && seen == old(seen)
      ensures member !in old(assignment) ==>
                r == NotFound && members == old(members) && assignment == old(assignment) && positions == old(positions)
      ensures member in old(assignment) ==>
                && r == Ok(()) && topic in broker.topics && positions == map[]
                && (forall m :: m in members <==> m in old(members) && m != member)
                && (members == [] ==> assignment == map[])
                && (members != [] ==> (forall m :: m in assignment <==> m in members)
                                      && Covers(assignment, |broker.topics[topic]|) && Even(assignment))
    {
      hide *;
      Unpack();
      if member !in assignment {
        return NotFound;
      }
      SoundMembers();
      OneMemberLess(members, member);
      members := Removed(members, member);
      var ok := Rebalance();
      RebalancedIsSound(broker.Snap(), topic, CommittedAt(broker.committed, groupId, topic), old(members),
                        old(assignment), old(positions),
                        earliest, seen, members, assignment);
      Repack();
      return Ok(());
    }

    lemma Parts(member: string)
      requires Valid() && member in assignment
      ensures topic in broker.topics && topic in broker.Snap() && LogsAt(broker.Snap(), topic) == broker.Snap()[topic]
      ensures |broker.Snap()[topic]| == |broker.topics[topic]|
      ensures forall k :: 0 <= k < |assignment[member]| ==> assignment[member][k] < |broker.topics[topic]|
      ensures forall p :: 0 <= p < |broker.Snap()[topic]| ==> LogOk(broker.Snap()[topic][p])
      ensures forall p {:trigger CommittedAt(broker.committed, groupId, topic)(p)} ::
                0 <= p < |broker.Snap()[topic]| ==>
                var c := CommittedAt(broker.committed, groupId, topic)(p);
                c.Some? ==> c.value <= broker.Snap()[topic][p].end
    {
      var s := broker.Snap();
      forall k | 0 <= k < |assignment[member]| ensures assignment[member][k] < |broker.topics[topic]| {
        assert Owns(assignment, member, assignment[member][k]);
      }
      forall p | 0 <= p < |s[topic]| ensures LogOk(s[topic][p]) {
        assert s[topic][p] == broker.topics[topic][p].Snap();
        assert broker.topics[topic][p].Valid();
      }
    }

    method StartAt(p: nat) returns (offset: nat)
      requires broker.Valid() && topic in broker.topics && p < |broker.topics[topic]|
      ensures offset == StartOffset(broker.Snap()[topic][p], CommittedAt(broker.committed, groupId, topic)(p), earliest)
    {
      hide *;
      var committed := broker.Committed(groupId, topic, p);
      SameCommitted(p);
      StartIs(p);
      if committed.Some? {
        return committed.value;
      }
      broker.Found(topic, p);
      var ends := broker.Offsets(topic, p);
      return if earliest then ends.value.0 else ends.value.1;
    }

    lemma SameCommitted(p: nat)
      ensures CommittedAt(broker.committed, groupId, topic)(p) == broker.Committed(groupId, topic, p)
    {
    }

    lemma StartIs(p: nat)
      requires broker.Valid() && topic in broker.topics && p < |broker.topics[topic]|
      ensures topic in broker.Snap() && p < |broker.Snap()[topic]|
      ensures var l, c := broker.Snap()[topic][p], CommittedAt(broker.committed, groupId, topic)(p);
              StartOffset(l, c, earliest) == if c.Some? then c.value else if earliest then l.start else l.end
    {
    }

    /** One partition of a poll, with the fall-back to the start offset when retention got there first. */
    method FetchFrom(member: string, p: nat, limit: nat) returns (f: Fetched)
      requires broker.Valid() && topic in broker.topics && p < |broker.topics[topic]| && limit > 0
      ensures f == FetchOne(broker.Snap()[topic][p], CommittedAt(broker.committed, groupId, topic)(p), earliest,
                            At(positions, member, p), limit)
    {
      hide *;
      broker.Unpack();
      StartIs(p);
      ghost var l, c := broker.Snap()[topic][p], CommittedAt(broker.committed, groupId, topic)(p);
      FetchIs(l, c, earliest, At(positions, member, p), limit);
      PositionIs(positions, member, p);
      broker.Found(topic, p);
      var start := StartAt(p);
      var position := if (member, p) in positions then positions[(member, p)] else start;
      var records := broker.Fetch(topic, p, position, limit);
      if records.OutOfRange? {
        position := start;
        records := broker.Fetch(topic, p, position, limit);
        if records.OutOfRange? {
          return Stuck;
        }
      }
      return Fetched(records.value, if records.value != [] then records.value[|records.value| - 1].offset + 1
                     else position);
    }

    /** Read from each assigned partition in turn; only the in-memory positions advance. */
    method Poll(member: string, max: int) returns (r: Result<seq<Record>>)
      requires Valid()
      modifies this`positions, this`seen
      ensures broker.Valid()
      ensures member !in assignment ==> r == NotFound && positions == old(positions) && seen == old(seen)
      ensures member in assignment ==>
                topic in broker.topics && forall k :: 0 <= k < |assignment[member]| ==>
                                            assignment[member][k] < |broker.Snap()[topic]|
      ensures member in assignment ==>
                var run := PollUpTo(broker.Snap()[topic], CommittedAt(broker.committed, groupId, topic), earliest,
                                    old(positions),
                                    member, assignment[member], |assignment[member]|, max);
                && positions == run.positions && seen == (if run.stuck then old(seen) else old(seen) + run.seen)
                && r == if run.stuck then OutOfRange else Ok(run.out)
      ensures !(earliest && r.OutOfRange?) ==> Valid()
      ensures topic in broker.topics &&
              (forall p :: 0 <= p < |broker.Snap()[topic]| ==> broker.Snap()[topic][p].start == 0) ==>
                !r.OutOfRange?
    {
      hide *;
      Unpack();
      if member !in assignment {
        return NotFound;
      }
      Parts(member);
      ghost var logs, committed := broker.Snap()[topic], CommittedAt(broker.committed, groupId, topic);
      ghost var run := PollUpTo(logs, committed, earliest, positions, member, assignment[member], |assignment[member]|,
                                max);
      PolledIsSound(broker.Snap(), topic, committed, members, assignment, positions, earliest, seen, member, max);
      var out, stuck := ReadAll(member, assignment[member], max, logs, committed);
      if stuck {
        if !earliest {
          Repack();
        }
        return OutOfRange;
      }
      seen := seen + run.seen;
      Repack();
      return Ok(out);
    }

    /** The loop of a poll: partition after partition until there are `max` records or one is lost. */
    method ReadAll(member: string, parts: seq<nat>, max: int, ghost logs: seq<Log>, ghost committed: nat -> Option<nat>)
        returns (out: seq<Record>, stuck: bool)
      requires broker.Valid() && topic in broker.topics && topic in broker.Snap() && logs == broker.Snap()[topic]
      requires |logs| == |broker.topics[topic]| && forall k :: 0 <= k < |parts| ==> parts[k] < |logs|
      requires committed == CommittedAt(broker.committed, groupId, topic)
      modifies this`positions
      ensures var run := PollUpTo(logs, committed, earliest, old(positions), member, parts, |parts|, max);
              out == run.out && stuck == run.stuck && positions == run.positions
    {
      hide *;
      ghost var before := positions;
      PollStarts(logs, committed, earliest, before, member, parts, max);
      out := [];
      for i := 0 to |parts|
        invariant var run := PollUpTo(logs, committed, earliest, before, member, parts, i, max);
                  !run.stuck && run.out == out && run.positions == positions
      {
        PollStep(logs, committed, earliest, before, member, parts, i, i + 1, max);
        if |out| >= max {
          PollStops(logs, committed, earliest, before, member, parts, i, max);
          return out, false;
        }
        var f := FetchFrom(member, parts[i], max - |out|);
        if f.Stuck? {
          PollStops(logs, committed, earliest, before, member, parts, i + 1, max);
          return out, true;
        }
        positions := positions[(member, parts[i]) := f.position];
        out := out + f.records;
      }
      return out, false;
    }

    /** Commit the member's positions. */
    method Commit(member: string) returns (r: Result<map<nat, nat>>)
      requires Valid()
      modifies broker`committed
      ensures Valid() && broker.Snap() == old(broker.Snap())
      ensures member !in assignment ==> r == NotFound && broker.committed == old(broker.committed)
      ensures member in assignment ==>
                && broker.committed == CommitUpTo(old(broker.committed), groupId, topic, positions, member,
                                                  assignment[member], |assignment[member]|)
                && r.Ok? && forall p :: p in r.value <==> p in assignment[member] && (member, p) in positions
    {
      hide *;
      Unpack();
      if member !in assignment {
        return NotFound;
      }
      Parts(member);
      var parts := assignment[member];
      var committed: map<nat, nat> := map[];
      ghost var was := broker.committed;
      CommitNothing(was, parts, member);
      for i := 0 to |parts|
        invariant Valid() && broker.Snap() == old(broker.Snap())
        invariant broker.committed == CommitUpTo(was, groupId, topic, positions, member, parts, i)
        invariant forall p :: p in committed <==> p in parts[..i] && (member, p) in positions
      {
        Unpack();
        Parts(member);
        PositionsEnd(member, parts[i]);
        CommitStep(was, groupId, topic, positions, member, parts, i, i + 1);
        assert parts[..i + 1] == parts[..i] + [parts[i]];
        if (member, parts[i]) in positions {
          broker.Found(topic, parts[i]);
          var done := broker.Commit(groupId, topic, parts[i], positions[(member, parts[i])]);
          committed := committed[parts[i] := positions[(member, parts[i])]];
        }
        CommittedIsSound(broker.Snap(), topic, was, groupId, members, assignment, positions, earliest, seen, member,
                         i + 1);
        Repack();
      }
      assert parts[..|parts|] == parts;
      return Ok(committed);
    }

    lemma CommitNothing(was: map<Slot, nat>, parts: seq<nat>, member: string)
      ensures CommitUpTo(was, groupId, topic, positions, member, parts, 0) == was
    {
    }

    lemma PositionsEnd(member: string, p: nat)
      requires Valid()
      ensures (member, p) in positions ==>
                topic in broker.topics && p < |broker.topics[topic]| &&
                    positions[(member, p)] <= broker.Snap()[topic][p].end
    {
    }
  }

  lemma CommitStep(committed: map<Slot, nat>, group: string, topic: string, positions: map<(string, nat), nat>,
                   member: string, parts: seq<nat>, n: nat, next: nat)
    requires n < |parts| && next == n + 1
    ensures var before := CommitUpTo(committed, group, topic, positions, member, parts, n);
            CommitUpTo(committed, group, topic, positions, member, parts, next) ==
            if (member, parts[n]) in positions then before[(group, topic, parts[n]) := positions[(member, parts[n])]]
               else before
  {
  }

  lemma PollStarts(logs: seq<Log>, committed: nat -> Option<nat>, earliest: bool, positions: map<(string, nat), nat>,
                   member: string, parts: seq<nat>, max: int)
    requires forall k :: 0 <= k < |parts| ==> parts[k] < |logs|
    ensures PollUpTo(logs, committed, earliest, positions, member, parts, 0, max) == Run([], positions, {}, false)
  {
  }

  lemma {:induction false} PollStep(logs: seq<Log>, committed: nat -> Option<nat>, earliest: bool,
                                    positions: map<(string, nat), nat>,
                 member: string, parts: seq<nat>, n: nat, next: nat, max: int)
    requires n < |parts| && next == n + 1 && forall k :: 0 <= k < |parts| ==> parts[k] < |logs|
    ensures var run := PollUpTo(logs, committed, earliest, positions, member, parts, n, max);
            var after := PollUpTo(logs, committed, earliest, positions, member, parts, next, max);
            !run.stuck && |run.out| < max ==>
              var f := FetchOne(logs[parts[n]], committed(parts[n]), earliest, At(run.positions, member, parts[n]),
                                max - |run.out|);
              && after.stuck == f.Stuck?
              && (f.Stuck? ==> after == run.(stuck := true))
              && (f.Fetched? ==>
                  after.out == run.out + f.records &&
                      after.positions == run.positions[(member, parts[n]) := f.position])
  {
    hide FetchOne;
  }

  /** Once a poll has failed or has enough, the remaining partitions change nothing. */
  lemma {:induction false} PollStops(logs: seq<Log>, committed: nat -> Option<nat>, earliest: bool,
                                     positions: map<(string, nat), nat>,
                                     member: string, parts: seq<nat>, n: nat, max: int)
    requires n <= |parts| && forall k :: 0 <= k < |parts| ==> parts[k] < |logs|
    requires var run := PollUpTo(logs, committed, earliest, positions, member, parts, n, max);
             run.stuck || |run.out| >= max
    ensures PollUpTo(logs, committed, earliest, positions, member, parts, |parts|, max) ==
            PollUpTo(logs, committed, earliest, positions, member, parts, n, max)
    decreases |parts| - n
  {
    hide FetchOne;
    if n < |parts| {
      PollStops(logs, committed, earliest, positions, member, parts, n + 1, max);
    }
  }

  lemma FetchIs(l: Log, committed: Option<nat>, earliest: bool, position: Option<nat>, limit: nat)
    ensures var start := StartOffset(l, committed, earliest);
            var p := if position.Some? then position.value else start;
            var q := if p < l.start then start else p;
            FetchOne(l, committed, earliest, position, limit) ==
            if q < l.start then Stuck
            else var records := FirstN(From(l.records, q), limit);
                 Fetched(records, if records != [] then records[|records| - 1].offset + 1 else q)
  {
  }

  lemma PositionIs(positions: map<(string, nat), nat>, member: string, p: nat)
    ensures At(positions, member, p) == if (member, p) in positions then Some(positions[(member, p)]) else None
  {
  }
}
