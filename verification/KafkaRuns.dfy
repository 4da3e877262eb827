/** Whole runs of a consumer group beside producers, compaction, retention and other groups; and
    exactly when a poll fails and what a failed poll costs. */
module KafkaRuns {
  import opened KafkaLog
  import opened KafkaBroker
  import opened KafkaGroup
  import opened Wrappers

  // ---------------------------------------------------------------- when a poll fails

  /** Retention has passed the committed offset, and the member has no position it could still
      read from: the reset to the start offset cannot help. */
  ghost predicate Blocked(logs: seq<Log>, committed: nat -> Option<nat>, positions: map<(string, nat), nat>,
                          member: string, p: nat)
    requires p < |logs|
  {
    && committed(p).Some? && committed(p).value < logs[p].start
    && (At(positions, member, p).Some? ==> At(positions, member, p).value < logs[p].start)
  }

  /** Where the member would read on partition `p`. */
  ghost function ReadFrom(logs: seq<Log>, committed: nat -> Option<nat>, earliest: bool,
                          positions: map<(string, nat), nat>,
                          member: string, p: nat): nat
    requires p < |logs|
  {
    var at := At(positions, member, p);
    if at.Some? && at.value >= logs[p].start then at.value else StartOffset(logs[p], committed(p), earliest)
  }

  /** The records waiting for the member on partition `p`. */
  ghost function Waiting(logs: seq<Log>, committed: nat -> Option<nat>, earliest: bool,
                         positions: map<(string, nat), nat>,
                         member: string, p: nat): seq<Record>
    requires p < |logs|
  {
    From(logs[p].records, ReadFrom(logs, committed, earliest, positions, member, p))
  }

  /** How many records wait on the first `n` partitions of the poll order. */
  ghost function WaitingUpTo(logs: seq<Log>, committed: nat -> Option<nat>, earliest: bool,
                             positions: map<(string, nat), nat>,
                             member: string, parts: seq<nat>, n: nat): nat
    requires n <= |parts| && forall k :: 0 <= k < |parts| ==> parts[k] < |logs|
  {
    if n == 0 then 0 else
      WaitingUpTo(logs, committed, earliest, positions, member, parts, n - 1)
      + |Waiting(logs, committed, earliest, positions, member, parts[n - 1])|
  }

  ghost predicate Apart(parts: seq<nat>) {
    forall i, j :: 0 <= i < j < |parts| ==> parts[i] != parts[j]
  }

  lemma FetchIsWaiting(logs: seq<Log>, committed: nat -> Option<nat>, earliest: bool,
                       positions: map<(string, nat), nat>,
                       member: string, p: nat, limit: nat)
    requires p < |logs| && LogOk(logs[p]) && limit > 0
    ensures var f := FetchOne(logs[p], committed(p), earliest, At(positions, member, p), limit);
            && (f.Stuck? <==> Blocked(logs, committed, positions, member, p))
            && (f.Fetched? ==> f.records == FirstN(Waiting(logs, committed, earliest, positions, member, p), limit))
  {
    hide From, FirstN;
  }

  /** One of the first `n` partitions is blocked, and fewer records than the poll may return
      wait in front of it. */
  ghost predicate Fails(logs: seq<Log>, committed: nat -> Option<nat>, earliest: bool,
                        positions: map<(string, nat), nat>,
                        member: string, parts: seq<nat>, n: nat, max: int)
    requires n <= |parts| && forall k :: 0 <= k < |parts| ==> parts[k] < |logs|
  {
    exists i :: 0 <= i < n && Blocked(logs, committed, positions, member, parts[i])
                && WaitingUpTo(logs, committed, earliest, positions, member, parts, i) < max
  }

  lemma FailsStep(logs: seq<Log>, committed: nat -> Option<nat>, earliest: bool, positions: map<(string, nat), nat>,
                  member: string, parts: seq<nat>, n: nat, next: nat, max: int)
    requires n < |parts| && next == n + 1 && forall k :: 0 <= k < |parts| ==> parts[k] < |logs|
    ensures Fails(logs, committed, earliest, positions, member, parts, next, max) <==>
              Fails(logs, committed, earliest, positions, member, parts, n, max)
              || (Blocked(logs, committed, positions, member, parts[n])
                  && WaitingUpTo(logs, committed, earliest, positions, member, parts, n) < max)
  {
    hide Blocked, WaitingUpTo;
  }

  /** A poll fails exactly when one of the member's partitions is blocked and it gets that far.
      As long as it has not, it has taken what was waiting, up to its limit. */
  lemma {:induction false} PollFailsIff(logs: seq<Log>, committed: nat -> Option<nat>, earliest: bool,
                                        positions: map<(string, nat), nat>,
                                        member: string, parts: seq<nat>, n: nat, max: nat)
    requires n <= |parts| && (forall k :: 0 <= k < |parts| ==> parts[k] < |logs|) && Apart(parts)
    requires forall p :: 0 <= p < |logs| ==> LogOk(logs[p])
    ensures var run := PollUpTo(logs, committed, earliest, positions, member, parts, n, max);
            var waiting := WaitingUpTo(logs, committed, earliest, positions, member, parts, n);
            && (run.stuck <==> Fails(logs, committed, earliest, positions, member, parts, n, max))
            && (!run.stuck ==> |run.out| == if waiting <= max then waiting else max)
            && (forall k :: n <= k < |parts| ==> At(run.positions, member, parts[k]) == At(positions, member, parts[k]))
  {
    hide *;
    if n == 0 {
      NothingPolled(logs, committed, earliest, positions, member, parts, max);
    } else {
      var run := PollUpTo(logs, committed, earliest, positions, member, parts, n - 1, max);
      PollFailsIff(logs, committed, earliest, positions, member, parts, n - 1, max);
      FailsStep(logs, committed, earliest, positions, member, parts, n - 1, n, max);
      WaitingStep(logs, committed, earliest, positions, member, parts, n - 1, n);
      if run.stuck || |run.out| >= max {
        PollHalts(logs, committed, earliest, positions, member, parts, n - 1, n, max);
      } else {
        var p := parts[n - 1];
        PollStep(logs, committed, earliest, positions, member, parts, n - 1, n, max);
        FetchIsWaiting(logs, committed, earliest, run.positions, member, p, max - |run.out|);
        SamePlace(logs, committed, earliest, positions, run.positions, member, p);
        FirstOf(Waiting(logs, committed, earliest, positions, member, p), max - |run.out|);
        OthersStay(logs, committed, earliest, positions, member, parts, n, max);
      }
    }
  }

  lemma NothingPolled(logs: seq<Log>, committed: nat -> Option<nat>, earliest: bool, positions: map<(string, nat), nat>,
                      member: string, parts: seq<nat>, max: int)
    requires forall k :: 0 <= k < |parts| ==> parts[k] < |logs|
    ensures PollUpTo(logs, committed, earliest, positions, member, parts, 0, max) == Run([], positions, {}, false)
    ensures WaitingUpTo(logs, committed, earliest, positions, member, parts, 0) == 0
    ensures !Fails(logs, committed, earliest, positions, member, parts, 0, max)
  {
  }

  lemma WaitingStep(logs: seq<Log>, committed: nat -> Option<nat>, earliest: bool, positions: map<(string, nat), nat>,
                    member: string, parts: seq<nat>, n: nat, next: nat)
    requires n < |parts| && next == n + 1 && forall k :: 0 <= k < |parts| ==> parts[k] < |logs|
    ensures WaitingUpTo(logs, committed, earliest, positions, member, parts, next) ==
            WaitingUpTo(logs, committed, earliest, positions, member, parts, n)
            + |Waiting(logs, committed, earliest, positions, member, parts[n])|
  {
  }

  lemma {:induction false} PollHalts(logs: seq<Log>, committed: nat -> Option<nat>, earliest: bool,
                                     positions: map<(string, nat), nat>,
                                     member: string, parts: seq<nat>, n: nat, next: nat, max: int)
    requires n < |parts| && next == n + 1 && forall k :: 0 <= k < |parts| ==> parts[k] < |logs|
    requires var run := PollUpTo(logs, committed, earliest, positions, member, parts, n, max);
             run.stuck || |run.out| >= max
    ensures PollUpTo(logs, committed, earliest, positions, member, parts, next, max) ==
            PollUpTo(logs, committed, earliest, positions, member, parts, n, max)
  {
    hide FetchOne;
  }

  lemma FirstOf(records: seq<Record>, limit: nat)
    ensures |FirstN(records, limit)| == if |records| <= limit then |records| else limit
  {
  }

  /** A fetch moves one position. */
  lemma {:induction false} OthersStay(logs: seq<Log>, committed: nat -> Option<nat>, earliest: bool,
                                      positions: map<(string, nat), nat>,
                                      member: string, parts: seq<nat>, n: nat, max: int)
    requires 0 < n <= |parts| && (forall k :: 0 <= k < |parts| ==> parts[k] < |logs|) && Apart(parts)
    ensures var before := PollUpTo(logs, committed, earliest, positions, member, parts, n - 1, max);
            var after := PollUpTo(logs, committed, earliest, positions, member, parts, n, max);
            forall k :: n <= k < |parts| ==>
              At(after.positions, member, parts[k]) == At(before.positions, member, parts[k])
  {
    hide FetchOne;
    forall k | n <= k < |parts| ensures parts[k] != parts[n - 1] {
    }
  }

  lemma SamePlace(logs: seq<Log>, committed: nat -> Option<nat>, earliest: bool, positions: map<(string, nat), nat>,
                  positions': map<(string, nat), nat>, member: string, p: nat)
    requires p < |logs| && At(positions', member, p) == At(positions, member, p)
    ensures Blocked(logs, committed, positions', member, p) == Blocked(logs, committed, positions, member, p)
    ensures Waiting(logs, committed, earliest, positions', member, p) ==
            Waiting(logs, committed, earliest, positions, member, p)
  {
  }

  // ---------------------------------------------------------------- what a failed poll costs

  /** The records a poll reads on its first `n` partitions, told from the logs and the positions
      before it. */
  ghost function TakenUpTo(logs: seq<Log>, committed: nat -> Option<nat>, earliest: bool,
                           positions: map<(string, nat), nat>,
                           member: string, parts: seq<nat>, n: nat, max: int): Seen
    requires n <= |parts| && forall k :: 0 <= k < |parts| ==> parts[k] < |logs|
  {
    if n == 0 then {} else
      var waiting := WaitingUpTo(logs, committed, earliest, positions, member, parts, n - 1);
      TakenUpTo(logs, committed, earliest, positions, member, parts, n - 1, max)
      + if waiting < max && !Fails(logs, committed, earliest, positions, member, parts, n, max)
        then Offsets(parts[n - 1], FirstN(Waiting(logs, committed, earliest, positions, member, parts[n - 1]),
                                          max - waiting))
        else {}
  }

  /** The poll has read exactly these, and its positions have passed them. */
  ghost predicate Passed(logs: seq<Log>, positions: map<(string, nat), nat>, member: string, taken: Seen) {
    forall x :: x in taken ==> PassedOne(logs, positions, member, x)
  }

  ghost predicate PassedOne(logs: seq<Log>, positions: map<(string, nat), nat>, member: string, x: (nat, nat)) {
    && x.0 < |logs| && (member, x.0) in positions && x.1 < positions[(member, x.0)]
    && exists r :: r in logs[x.0].records && r.offset == x.1
  }

  lemma {:induction false} PollTakes(logs: seq<Log>, committed: nat -> Option<nat>, earliest: bool,
                                     positions: map<(string, nat), nat>,
                                     member: string, parts: seq<nat>, n: nat, max: nat)
    requires n <= |parts| && (forall k :: 0 <= k < |parts| ==> parts[k] < |logs|) && Apart(parts)
    requires forall p :: 0 <= p < |logs| ==> LogOk(logs[p])
    ensures var run := PollUpTo(logs, committed, earliest, positions, member, parts, n, max);
            && run.seen == TakenUpTo(logs, committed, earliest, positions, member, parts, n, max)
            && Passed(logs, run.positions, member, run.seen)
            && forall x :: x in run.seen ==> x.0 in parts[..n]
  {
    hide *;
    if n == 0 {
      NothingPolled(logs, committed, earliest, positions, member, parts, max);
      NothingTaken(logs, committed, earliest, positions, member, parts, max);
    } else {
      var run := PollUpTo(logs, committed, earliest, positions, member, parts, n - 1, max);
      var p, waiting := parts[n - 1], WaitingUpTo(logs, committed, earliest, positions, member, parts, n - 1);
      PollTakes(logs, committed, earliest, positions, member, parts, n - 1, max);
      PollFailsIff(logs, committed, earliest, positions, member, parts, n - 1, max);
      PollFailsIff(logs, committed, earliest, positions, member, parts, n, max);
      FailsStep(logs, committed, earliest, positions, member, parts, n - 1, n, max);
      TakenStep(logs, committed, earliest, positions, member, parts, n - 1, n, max);
      assert parts[..n] == parts[..n - 1] + [p];
      ApartFrom(parts, n - 1);
      if run.stuck || |run.out| >= max {
        PollHalts(logs, committed, earliest, positions, member, parts, n - 1, n, max);
      } else {
        SeenStep(logs, committed, earliest, positions, member, parts, n - 1, n, max);
        FetchIsWaiting(logs, committed, earliest, run.positions, member, p, max - |run.out|);
        SamePlace(logs, committed, earliest, positions, run.positions, member, p);
        FetchPasses(logs, committed, earliest, run.positions, member, p, max - |run.out|, run.seen);
      }
    }
  }

  lemma NothingTaken(logs: seq<Log>, committed: nat -> Option<nat>, earliest: bool, positions: map<(string, nat), nat>,
                     member: string, parts: seq<nat>, max: int)
    requires forall k :: 0 <= k < |parts| ==> parts[k] < |logs|
    ensures TakenUpTo(logs, committed, earliest, positions, member, parts, 0, max) == {}
    ensures Passed(logs, positions, member, {})
  {
  }

  lemma TakenStep(logs: seq<Log>, committed: nat -> Option<nat>, earliest: bool, positions: map<(string, nat), nat>,
                  member: string, parts: seq<nat>, n: nat, next: nat, max: int)
    requires n < |parts| && next == n + 1 && forall k :: 0 <= k < |parts| ==> parts[k] < |logs|
    ensures var waiting := WaitingUpTo(logs, committed, earliest, positions, member, parts, n);
            var before := TakenUpTo(logs, committed, earliest, positions, member, parts, n, max);
            TakenUpTo(logs, committed, earliest, positions, member, parts, next, max) ==
            if waiting < max && !Fails(logs, committed, earliest, positions, member, parts, next, max)
            then before + Offsets(parts[n], FirstN(Waiting(logs, committed, earliest, positions, member, parts[n]),
                                                   max - waiting))
            else before
  {
    hide Fails, Waiting, WaitingUpTo;
  }

  lemma {:induction false} SeenStep(logs: seq<Log>, committed: nat -> Option<nat>, earliest: bool,
                                    positions: map<(string, nat), nat>,
                                    member: string, parts: seq<nat>, n: nat, next: nat, max: int)
    requires n < |parts| && next == n + 1 && forall k :: 0 <= k < |parts| ==> parts[k] < |logs|
    ensures var run := PollUpTo(logs, committed, earliest, positions, member, parts, n, max);
            var after := PollUpTo(logs, committed, earliest, positions, member, parts, next, max);
            !run.stuck && |run.out| < max ==>
              var f := FetchOne(logs[parts[n]], committed(parts[n]), earliest, At(run.positions, member, parts[n]),
                                max - |run.out|);
              && after.stuck == f.Stuck?
              && after.seen == (if f.Stuck? then run.seen else run.seen + Offsets(parts[n], f.records))
              && after.positions == if f.Stuck? then run.positions else run.positions[(member, parts[n]) := f.position]
  {
    hide FetchOne;
  }

  /** A fetch moves its position past everything it read, and touches no other position. */
  lemma FetchPasses(logs: seq<Log>, committed: nat -> Option<nat>, earliest: bool, positions: map<(string, nat), nat>,
                    member: string, p: nat, limit: nat, seen: Seen)
    requires p < |logs| && LogOk(logs[p]) && limit > 0 && Passed(logs, positions, member, seen)
    requires forall x :: x in seen ==> x.0 != p
    ensures var f := FetchOne(logs[p], committed(p), earliest, At(positions, member, p), limit);
            f.Fetched? ==>
              && Passed(logs, positions[(member, p) := f.position], member, seen + Offsets(p, f.records))
              && forall x :: x in Offsets(p, f.records) ==> x.0 == p
  {
    var f := FetchOne(logs[p], committed(p), earliest, At(positions, member, p), limit);
    FetchIsOrdered(logs[p], committed(p), earliest, At(positions, member, p), limit);
    hide FetchOne, At, LogOk;
    if f.Fetched? {
      var positions' := positions[(member, p) := f.position];
      forall x | x in Offsets(p, f.records) ensures PassedOne(logs, positions', member, x) && x.0 == p {
        var i :| 0 <= i < |f.records| && x == (p, f.records[i].offset);
        assert f.records[i] in logs[p].records;
      }
      hide Offsets;
      forall x | x in seen ensures PassedOne(logs, positions', member, x) {
        assert PassedOne(logs, positions, member, x);
      }
    }
  }

  /** The offset a fetch reads from. */
  lemma FetchReads(l: Log, committed: Option<nat>, earliest: bool, position: Option<nat>, limit: nat) returns (q: nat)
    ensures var f := FetchOne(l, committed, earliest, position, limit);
            f.Fetched? ==>
              && f.records == FirstN(From(l.records, q), limit)
              && f.position == if f.records != [] then f.records[|f.records| - 1].offset + 1 else q
  {
    hide From, FirstN;
    var p := position.GetOr(StartOffset(l, committed, earliest));
    q := if p < l.start then StartOffset(l, committed, earliest) else p;
  }

  lemma FetchIsOrdered(l: Log, committed: Option<nat>, earliest: bool, position: Option<nat>, limit: nat)
    requires LogOk(l)
    ensures var f := FetchOne(l, committed, earliest, position, limit);
            f.Fetched? ==>
                  forall i :: 0 <= i < |f.records| ==> f.records[i] in l.records && f.records[i].offset < f.position
  {
    hide FetchOne, From, FirstN, LogOk;
    var f := FetchOne(l, committed, earliest, position, limit);
    var q := FetchReads(l, committed, earliest, position, limit);
    ReadIsOrdered(l, q, limit);
    if f.Fetched? {
      forall i | 0 <= i < |f.records| ensures f.records[i] in l.records && f.records[i].offset < f.position {
        assert i < |f.records| - 1 ==> f.records[i].offset < f.records[|f.records| - 1].offset;
      }
    }
  }

  lemma ApartFrom(parts: seq<nat>, n: nat)
    requires Apart(parts) && n < |parts|
    ensures parts[n] !in parts[..n]
  {
  }

  /** If a poll fails, what it read is returned to nobody. Whether that breaks the promise behind
      a position is known beforehand: it does exactly when it read a record no poll had returned. */
  lemma FailedPollSkipsIff(logs: seq<Log>, committed: nat -> Option<nat>, positions: map<(string, nat), nat>,
                           seen: Seen,
                           member: string, parts: seq<nat>, max: nat)
    requires (forall k :: 0 <= k < |parts| ==> parts[k] < |logs|) && Apart(parts)
    requires (forall p :: 0 <= p < |logs| ==> LogOk(logs[p])) && Progress(logs, committed, positions, seen)
    ensures var run := PollUpTo(logs, committed, true, positions, member, parts, |parts|, max);
            && (run.stuck <==> Fails(logs, committed, true, positions, member, parts, |parts|, max))
            && (Progress(logs, committed, run.positions, seen) <==>
                TakenUpTo(logs, committed, true, positions, member, parts, |parts|, max) <= seen)
  {
    hide *;
    var run := PollUpTo(logs, committed, true, positions, member, parts, |parts|, max);
    PollFailsIff(logs, committed, true, positions, member, parts, |parts|, max);
    PollTakes(logs, committed, true, positions, member, parts, |parts|, max);
    PollProgress(logs, committed, positions, seen, member, parts, |parts|, max);
    if run.seen <= seen {
      assert seen + run.seen == seen;
    }
    if Progress(logs, committed, run.positions, seen) {
      PassedIsSeen(logs, committed, run.positions, member, run.seen, seen);
    }
  }

  lemma PassedIsSeen(logs: seq<Log>, committed: nat -> Option<nat>, positions: map<(string, nat), nat>, member: string,
                     taken: Seen, seen: Seen)
    requires Passed(logs, positions, member, taken) && Progress(logs, committed, positions, seen)
    ensures taken <= seen
  {
    forall x | x in taken ensures x in seen {
      assert PassedOne(logs, positions, member, x);
      assert Covered(logs[x.0], x.0, positions[(member, x.0)], seen);
    }
  }

  /** And the member's next commit writes it into the committed offsets. */
  lemma CommitAfterFailedPoll(logs: seq<Log>, was: map<Slot, nat>, group: string, topic: string,
                              positions: map<(string, nat), nat>,
                              seen: Seen, member: string, parts: seq<nat>, max: nat)
    requires (forall k :: 0 <= k < |parts| ==> parts[k] < |logs|) && Apart(parts)
    requires (forall p :: 0 <= p < |logs| ==> LogOk(logs[p])) &&
             Progress(logs, CommittedAt(was, group, topic), positions, seen)
    ensures var run := PollUpTo(logs, CommittedAt(was, group, topic), true, positions, member, parts, |parts|, max);
            var now := CommittedAt(CommitUpTo(was, group, topic, run.positions, member, parts, |parts|), group, topic);
            Progress(logs, now, map[], seen) <==>
            TakenUpTo(logs, CommittedAt(was, group, topic), true, positions, member, parts, |parts|, max) <= seen
  {
    hide *;
    var c := CommittedAt(was, group, topic);
    var run := PollUpTo(logs, c, true, positions, member, parts, |parts|, max);
    PollTakes(logs, c, true, positions, member, parts, |parts|, max);
    FailedPollSkipsIff(logs, c, positions, seen, member, parts, max);
    var now := CommittedAt(CommitUpTo(was, group, topic, run.positions, member, parts, |parts|), group, topic);
    assert parts[..|parts|] == parts;
    forall p: nat ensures now(p) == if p in parts && (member, p) in run.positions then Some(run.positions[(member, p)])
           else c(p) {
      CommitSets(was, group, topic, run.positions, member, parts, |parts|, (group, topic, p));
      CommittedIs(was, group, topic, p);
      CommittedIs(CommitUpTo(was, group, topic, run.positions, member, parts, |parts|), group, topic, p);
    }
    if run.seen <= seen {
      StillProgress(logs, c, now, run.positions, member, parts, seen);
    }
    if Progress(logs, now, map[], seen) {
      CommittedIsSeen(logs, now, run.positions, member, parts, run.seen, seen);
    }
  }

  lemma CommittedIs(committed: map<Slot, nat>, group: string, topic: string, p: nat)
    ensures CommittedAt(committed, group, topic)(p) ==
            if (group, topic, p) in committed then Some(committed[(group, topic, p)]) else None
  {
  }

  lemma StillProgress(logs: seq<Log>, committed: nat -> Option<nat>, now: nat -> Option<nat>,
                      positions: map<(string, nat), nat>,
                      member: string, parts: seq<nat>, seen: Seen)
    requires Progress(logs, committed, positions, seen)
    requires forall p: nat :: now(p) ==
               if p in parts && (member, p) in positions then Some(positions[(member, p)]) else committed(p)
    ensures Progress(logs, now, map[], seen)
  {
    hide Covered;
  }

  lemma CommittedIsSeen(logs: seq<Log>, now: nat -> Option<nat>, positions: map<(string, nat), nat>, member: string,
                        parts: seq<nat>, taken: Seen, seen: Seen)
    requires Passed(logs, positions, member, taken) && Progress(logs, now, map[], seen)
    requires forall x :: x in taken ==> x.0 in parts
    requires forall p: nat :: p in parts && (member, p) in positions ==> now(p) == Some(positions[(member, p)])
    ensures taken <= seen
  {
    forall x | x in taken ensures x in seen {
      assert PassedOne(logs, positions, member, x);
      assert now(x.0) == Some(positions[(member, x.0)]);
      assert Covered(logs[x.0], x.0, now(x.0).value, seen);
    }
  }

  /** For instance: one record on the first partition, and a second partition whose committed
      offset retention has passed. The poll fails, the commit goes through, and the committed
      offset has passed a record that is in the log and was returned to nobody. */
  lemma FailedPollSkips(group: string, topic: string, member: string, r: Record, logs: seq<Log>, was: map<Slot, nat>,
                        parts: seq<nat>, max: nat)
    requires r.offset == 0 && logs == [Log([r], 1, 0), Log([], 5, 5)] && parts == [0, 1] && max > 1
    requires was == map[(group, topic, 1) := 2]
    ensures var run := PollUpTo(logs, CommittedAt(was, group, topic), true, map[], member, parts, |parts|, max);
            var now := CommitUpTo(was, group, topic, run.positions, member, parts, |parts|);
            && (forall p :: 0 <= p < |logs| ==> LogOk(logs[p])) &&
               Progress(logs, CommittedAt(was, group, topic), map[], {})
            && run.stuck && (group, topic, 0) in now && r.offset < now[(group, topic, 0)] && r in logs[0].records
  {
    SetUp(logs, CommittedAt(was, group, topic), r);
    CommittedIs(was, group, topic, 0);
    CommittedIs(was, group, topic, 1);
    ReadsOne(logs[0], r, max);
    StuckThere(logs[1], 2, max - 1);
    FailedPollRuns(logs, CommittedAt(was, group, topic), member, parts, r, max);
    hide *;
    var run := PollUpTo(logs, CommittedAt(was, group, topic), true, map[], member, parts, |parts|, max);
    CommitSets(was, group, topic, run.positions, member, parts, |parts|, (group, topic, 0));
    assert parts[..|parts|] == parts && parts[0] == 0;
  }

  lemma SetUp(logs: seq<Log>, committed: nat -> Option<nat>, r: Record)
    requires r.offset == 0 && logs == [Log([r], 1, 0), Log([], 5, 5)]
    requires committed(0).None? && committed(1) == Some(2)
    ensures (forall p :: 0 <= p < |logs| ==> LogOk(logs[p])) && Progress(logs, committed, map[], {}) &&
            r in logs[0].records
  {
  }

  /** Two partitions, a record from the first and a failure on the second. */
  lemma FailedPollRuns(logs: seq<Log>, committed: nat -> Option<nat>, member: string, parts: seq<nat>, r: Record,
                       max: nat)
    requires |logs| == |parts| == 2 && parts[0] == 0 && parts[1] == 1 && max > 1
    requires FetchOne(logs[0], committed(0), true, None, max) == Fetched([r], 1)
    requires FetchOne(logs[1], committed(1), true, None, max - 1) == Stuck
    ensures var run := PollUpTo(logs, committed, true, map[], member, parts, |parts|, max);
            run.stuck && (member, 0) in run.positions && run.positions[(member, 0)] == 1
  {
    hide *;
    var one := |parts| - 1;
    NothingPolled(logs, committed, true, map[], member, parts, max);
    PositionIs(map[], member, 0);
    SeenStep(logs, committed, true, map[], member, parts, 0, one, max);
    PollStep(logs, committed, true, map[], member, parts, 0, one, max);
    PositionIs(PollUpTo(logs, committed, true, map[], member, parts, one, max).positions, member, 1);
    SeenStep(logs, committed, true, map[], member, parts, one, |parts|, max);
  }

  lemma ReadsOne(l: Log, r: Record, max: nat)
    requires l == Log([r], 1, 0) && r.offset == 0 && max > 0
    ensures FetchOne(l, None, true, None, max) == Fetched([r], 1)
  {
    BelowIsUnique(l.records, 0, 0);
    FetchIs(l, None, true, None, max);
    hide FetchOne, Below;
  }

  lemma StuckThere(l: Log, committed: nat, max: nat)
    requires committed < l.start
    ensures FetchOne(l, Some(committed), true, None, max) == Stuck
  {
    FetchIs(l, Some(committed), true, None, max);
    hide FetchOne, From, FirstN;
  }

  // ---------------------------------------------------------------- whole runs

  datatype Group = Group(s: Logs, committed: map<Slot, nat>, members: seq<string>, assignment: Assignment,
                         positions: map<(string, nat), nat>, seen: Seen)

  /** What a group does, each with the assignment its rebalance comes to; and what everybody else
      does to the broker: producing, compacting, expiring, creating topics, committing for other groups. */
  datatype Step =
    | Joined(member: string, assignment: Assignment)
    | Left(member: string, assignment: Assignment)
    | Polled(member: string, max: nat)
    | Commits(member: string)
    | Others(s: Logs, committed: map<Slot, nat>)

  ghost predicate LogsOk(s: Logs) {
    forall t, p :: t in s && 0 <= p < |s[t]| ==> LogOk(s[t][p])
  }

  ghost predicate Reassigns(g: Group, topic: string, members: seq<string>, assignment: Assignment) {
    if topic !in g.s then assignment == g.assignment
    else if members == [] then assignment == map[]
    else Covers(assignment, |g.s[topic]|) && forall m :: m in assignment <==> m in members
  }

  ghost function PollOf(g: Group, group: string, topic: string, member: string, max: nat): Run
    requires topic in g.s && member in g.assignment &&
             forall k :: 0 <= k < |g.assignment[member]| ==> g.assignment[member][k] < |g.s[topic]|
  {
    PollUpTo(g.s[topic], CommittedAt(g.committed, group, topic), true, g.positions, member, g.assignment[member],
             |g.assignment[member]|, max)
  }

  ghost predicate Possible(g: Group, group: string, topic: string, e: Step) {
    match e
    case Joined(m, a) => m !in g.members && Reassigns(g, topic, g.members + [m], a)
    case Left(m, a) => m in g.assignment && Reassigns(g, topic, Removed(g.members, m), a)
    case Polled(m, max) =>
      && topic in g.s && m in g.assignment &&
         (forall k :: 0 <= k < |g.assignment[m]| ==> g.assignment[m][k] < |g.s[topic]|)
      && !Fails(g.s[topic], CommittedAt(g.committed, group, topic), true, g.positions, m, g.assignment[m],
                |g.assignment[m]|, max)
    case Commits(m) => m in g.assignment
    case Others(s, committed) =>
      && AllGrow(g.s, s) && LogsOk(s) && Committable(committed, s)
      && forall p: nat :: CommittedAt(committed, group, topic)(p) == CommittedAt(g.committed, group, topic)(p)
  }

  ghost function Next(g: Group, group: string, topic: string, e: Step): Group
    requires Possible(g, group, topic, e)
  {
    match e
    case Joined(m, a) => g.(members := g.members + [m], assignment := a, positions :=
                            if topic in g.s then map[] else g.positions)
    case Left(m, a) => g.(members := Removed(g.members, m), assignment := a, positions :=
                          if topic in g.s then map[] else g.positions)
    case Polled(m, max) =>
      var run := PollOf(g, group, topic, m, max);
      g.(positions := run.positions, seen := g.seen + run.seen)
    case Commits(m) =>
      g.(committed := CommitUpTo(g.committed, group, topic, g.positions, m, g.assignment[m], |g.assignment[m]|))
    case Others(s, committed) => g.(s := s, committed := committed)
  }

  ghost predicate Good(g: Group, group: string, topic: string) {
    && LogsOk(g.s) && Committable(g.committed, g.s)
    && Sound(g.s, topic, CommittedAt(g.committed, group, topic), g.members, g.assignment, g.positions, true, g.seen)
  }

  lemma SoundPointwise(s: Logs, topic: string, c: nat -> Option<nat>, c': nat -> Option<nat>, members: seq<string>,
                       assignment: Assignment, positions: map<(string, nat), nat>, seen: Seen)
    requires Sound(s, topic, c, members, assignment, positions, true, seen) && forall p: nat :: c'(p) == c(p)
    ensures Sound(s, topic, c', members, assignment, positions, true, seen)
  {
    hide Covers, Covered;
  }

  lemma PartsOf(g: Group, group: string, topic: string, m: string)
    requires Good(g, group, topic) && m in g.assignment
    ensures topic in g.s && LogsAt(g.s, topic) == g.s[topic] && Apart(g.assignment[m])
    ensures forall k :: 0 <= k < |g.assignment[m]| ==> g.assignment[m][k] < |g.s[topic]|
    ensures forall p :: 0 <= p < |g.s[topic]| ==> LogOk(g.s[topic][p])
    ensures forall p {:trigger CommittedAt(g.committed, group, topic)(p)} :: 0 <= p < |g.s[topic]| ==>
              var c := CommittedAt(g.committed, group, topic)(p); c.Some? ==> c.value <= g.s[topic][p].end
  {
    forall k | 0 <= k < |g.assignment[m]| ensures g.assignment[m][k] < |g.s[topic]| {
      assert Owns(g.assignment, m, g.assignment[m][k]);
    }
  }

  lemma JoinKeeps(g: Group, group: string, topic: string, m: string, a: Assignment)
    requires Good(g, group, topic) && Possible(g, group, topic, Joined(m, a))
    ensures Good(Next(g, group, topic, Joined(m, a)), group, topic)
  {
    hide Covers, Progress, LogsOk, Committable;
    OneMoreMember(g.members, m);
    var c := CommittedAt(g.committed, group, topic);
    if topic in g.s {
      RebalancedIsSound(g.s, topic, c, g.members, g.assignment, g.positions, true, g.seen, g.members + [m], a);
    } else {
      NoTopicIsSound(g.s, topic, c, g.members, g.assignment, g.positions, true, g.seen, g.members + [m]);
    }
  }

  lemma LeaveKeeps(g: Group, group: string, topic: string, m: string, a: Assignment)
    requires Good(g, group, topic) && Possible(g, group, topic, Left(m, a))
    ensures Good(Next(g, group, topic, Left(m, a)), group, topic)
  {
    hide Covers, Progress, LogsOk, Committable;
    OneMemberLess(g.members, m);
    RebalancedIsSound(g.s, topic, CommittedAt(g.committed, group, topic), g.members, g.assignment, g.positions, true,
                      g.seen,
                      Removed(g.members, m), a);
  }

  lemma PollKeeps(g: Group, group: string, topic: string, m: string, max: nat)
    requires Good(g, group, topic) && Possible(g, group, topic, Polled(m, max))
    ensures Good(Next(g, group, topic, Polled(m, max)), group, topic)
  {
    var c := CommittedAt(g.committed, group, topic);
    PartsOf(g, group, topic, m);
    PolledIsSound(g.s, topic, c, g.members, g.assignment, g.positions, true, g.seen, m, max);
    PollFailsIff(g.s[topic], c, true, g.positions, m, g.assignment[m], |g.assignment[m]|, max);
    hide Sound, LogsOk, Committable, PollUpTo, Fails, WaitingUpTo, CommittedAt;
  }

  lemma CommitKeeps(g: Group, group: string, topic: string, m: string)
    requires Good(g, group, topic) && Possible(g, group, topic, Commits(m))
    ensures Good(Next(g, group, topic, Commits(m)), group, topic)
  {
    PartsOf(g, group, topic, m);
    var parts := g.assignment[m];
    var after := CommitUpTo(g.committed, group, topic, g.positions, m, parts, |parts|);
    CommittedIsSound(g.s, topic, g.committed, group, g.members, g.assignment, g.positions, true, g.seen, m, |parts|);
    forall k | k in after ensures k.1 in g.s && k.2 < |g.s[k.1]| && after[k] <= g.s[k.1][k.2].end {
      CommitSets(g.committed, group, topic, g.positions, m, parts, |parts|, k);
      assert k in g.committed || (m, k.2) in g.positions;
    }
  }

  lemma OthersKeep(g: Group, group: string, topic: string, s: Logs, committed: map<Slot, nat>)
    requires Good(g, group, topic) && Possible(g, group, topic, Others(s, committed))
    ensures Good(Next(g, group, topic, Others(s, committed)), group, topic)
  {
    var c := CommittedAt(g.committed, group, topic);
    forall p: nat | topic !in g.s ensures c(p).None? {
      CommittedIs(g.committed, group, topic, p);
    }
    OthersAreHarmless(g.s, s, topic, c, g.members, g.assignment, g.positions, true, g.seen);
    SoundPointwise(s, topic, c, CommittedAt(committed, group, topic), g.members, g.assignment, g.positions, g.seen);
  }

  ghost predicate IsRun(g: Group, group: string, topic: string, run: seq<Step>)
    decreases |run|
  {
    run == [] || (Possible(g, group, topic, run[0]) && IsRun(Next(g, group, topic, run[0]), group, topic, run[1..]))
  }

  ghost function After(g: Group, group: string, topic: string, run: seq<Step>): Group
    requires IsRun(g, group, topic, run)
    decreases |run|
  {
    if run == [] then g else After(Next(g, group, topic, run[0]), group, topic, run[1..])
  }

  /** Over any run of joins, leaves, polls that do not fail, commits and whatever others do,
      starting from a good state such as a group nobody has used. */
  lemma {:induction false} RunsAreGood(g: Group, group: string, topic: string, run: seq<Step>)
    requires Good(g, group, topic) && IsRun(g, group, topic, run)
    ensures Good(After(g, group, topic, run), group, topic)
    decreases |run|
  {
    hide Good, Possible;
    if run != [] {
      match run[0] {
        case Joined(m, a) => JoinKeeps(g, group, topic, m, a);
        case Left(m, a) => LeaveKeeps(g, group, topic, m, a);
        case Polled(m, max) => PollKeeps(g, group, topic, m, max);
        case Commits(m) => CommitKeeps(g, group, topic, m);
        case Others(s, committed) => OthersKeep(g, group, topic, s, committed);
      }
      RunsAreGood(Next(g, group, topic, run[0]), group, topic, run[1..]);
    }
  }

  /** A record in the log that the group has committed past. */
  ghost predicate BelowCommit(g: Group, group: string, topic: string, p: nat, r: Record) {
    && topic in g.s && p < |g.s[topic]| && r in g.s[topic][p].records
    && (group, topic, p) in g.committed && r.offset < g.committed[(group, topic, p)]
  }

  /** At the end of every such run each record below the committed offset has been returned by a
      poll, or compaction or retention has removed it; and each partition has exactly one owner. */
  lemma NothingBelowCommitIsMissed(g: Group, group: string, topic: string, run: seq<Step>, p: nat, r: Record)
    requires g == Group(map[], map[], [], map[], map[], {}) && IsRun(g, group, topic, run)
    ensures var end := After(g, group, topic, run);
            && (BelowCommit(end, group, topic, p, r) ==> (p, r.offset) in end.seen)
            && (end.assignment != map[] ==> topic in end.s && Covers(end.assignment, |end.s[topic]|))
  {
    RunsAreGood(g, group, topic, run);
    var end := After(g, group, topic, run);
    CommittedIs(end.committed, group, topic, p);
    if BelowCommit(end, group, topic, p, r) {
      CommittedIsReceived(end.s, topic, CommittedAt(end.committed, group, topic), end.members, end.assignment,
                          end.positions, end.seen, p, r);
    }
  }
}
