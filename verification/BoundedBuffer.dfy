/** A producer-consumer queue on two condition variables. Each lock-held stretch of code is one
    step; threads that called `wait` are parked until a `notify` wakes them. */
module BoundedBuffer {

  type Thread = nat

  /** Where a thread is. `woken` threads were notified and want the lock back to look again. */
  datatype Phase<T> = Outside | Putting(item: T, woken: bool) | Getting(woken: bool) | ParkedPut(item: T) | ParkedGet

  /** The buffer, its two wait queues in arrival order, and a record of what went in and out. */
  datatype State<T> = State(items: seq<T>, notFull: seq<Thread>, notEmpty: seq<Thread>, phases: map<Thread, Phase<T>>,
                            accepted: seq<T>, delivered: seq<T>)

  /** `Abandon` is a `wait` that ends in an exception, before or after somebody notified it. */
  datatype Event<T> = StartPut(t: Thread, item: T) | StartGet(t: Thread) | RunPut(t: Thread) | RunGet(t: Thread)
                    | Abandon(t: Thread)

  function PhaseOf<T>(s: State<T>, t: Thread): Phase<T> {
    if t in s.phases then s.phases[t] else Outside
  }

  function Initial<T>(): State<T> {
    State([], [], [], map[], [], [])
  }

  // ---------------------------------------------------------------- steps

  /** `not_empty.notify()`. */
  function WakeGetter<T>(s: State<T>): State<T> {
    if s.notEmpty == [] then s else
      s.(notEmpty := s.notEmpty[1..], phases := s.phases[s.notEmpty[0] := Getting(true)])
  }

  /** `not_full.notify()`. */
  function WakePutter<T>(s: State<T>): State<T> {
    if s.notFull == [] then s else
      var t := s.notFull[0];
      var phase := PhaseOf(s, t);
      s.(notFull := s.notFull[1..], phases :=
         s.phases[t := if phase.ParkedPut? then Putting(phase.item, true) else phase])
  }

  /** The thread holds the lock in `put`: wait if the buffer is full, else append and notify. */
  function PutSegment<T>(s: State<T>, capacity: nat, t: Thread): State<T> {
    var phase := PhaseOf(s, t);
    if !phase.Putting? then s
    else if |s.items| == capacity then s.(phases := s.phases[t := ParkedPut(phase.item)], notFull := s.notFull + [t])
    else WakeGetter(s.(items := s.items + [phase.item], accepted := s.accepted + [phase.item], phases :=
                       s.phases[t := Outside]))
  }

  /** The thread holds the lock in `get`: wait if the buffer is empty, else take the oldest and notify. */
  function GetSegment<T>(s: State<T>, t: Thread): State<T> {
    if !PhaseOf(s, t).Getting? then s
    else if s.items == [] then s.(phases := s.phases[t := ParkedGet], notEmpty := s.notEmpty + [t])
    else WakePutter(s.(items := s.items[1..], delivered := s.delivered + [s.items[0]], phases :=
                       s.phases[t := Outside]))
  }

  function Without(ts: seq<Thread>, t: Thread): seq<Thread> {
    if ts == [] then [] else if ts[0] == t then Without(ts[1..], t) else [ts[0]] + Without(ts[1..], t)
  }

  /** The thread leaves its call without a word; if it was still asleep it leaves the wait queue too. */
  function AbandonSegment<T>(s: State<T>, t: Thread): State<T> {
    s.(phases := s.phases[t := Outside], notFull := Without(s.notFull, t), notEmpty := Without(s.notEmpty, t))
  }

  /** A call that has been in `wait` and has not come back to look yet. */
  predicate Waits<T>(phase: Phase<T>) {
    match phase
    case Outside => false
    case Putting(_, woken) => woken
    case Getting(woken) => woken
    case ParkedPut(_) => true
    case ParkedGet => true
  }

  predicate Enabled<T>(s: State<T>, e: Event<T>) {
    match e
    case StartPut(t, _) => PhaseOf(s, t).Outside?
    case StartGet(t) => PhaseOf(s, t).Outside?
    case RunPut(t) => PhaseOf(s, t).Putting?
    case RunGet(t) => PhaseOf(s, t).Getting?
    case Abandon(t) => Waits(PhaseOf(s, t))
  }

  function Apply<T>(s: State<T>, capacity: nat, e: Event<T>): State<T> {
    match e
    case StartPut(t, item) => s.(phases := s.phases[t := Putting(item, false)])
    case StartGet(t) => s.(phases := s.phases[t := Getting(false)])
    case RunPut(t) => PutSegment(s, capacity, t)
    case RunGet(t) => GetSegment(s, t)
    case Abandon(t) => AbandonSegment(s, t)
  }

  /** The state after a run from the empty buffer, whatever the scheduler chose. */
  function Exec<T>(capacity: nat, run: seq<Event<T>>): State<T> {
    if run == [] then Initial() else Apply(Exec(capacity, run[..|run| - 1]), capacity, run[|run| - 1])
  }

  ghost predicate Legal<T>(capacity: nat, run: seq<Event<T>>) {
    forall i :: 0 <= i < |run| ==> Enabled(Exec(capacity, run[..i]), run[i])
  }

  // ---------------------------------------------------------------- invariant

  ghost function WokenGetters<T>(s: State<T>): set<Thread> {
    set t | t in s.phases && s.phases[t].Getting? && s.phases[t].woken
  }

  ghost function WokenPutters<T>(s: State<T>): set<Thread> {
    set t | t in s.phases && s.phases[t].Putting? && s.phases[t].woken
  }

  ghost predicate Distinct(ts: seq<Thread>) {
    forall i, j :: 0 <= i < j < |ts| ==> ts[i] != ts[j]
  }

  /** The wait queues hold exactly the parked threads. */
  ghost predicate Queues<T>(s: State<T>) {
    && Distinct(s.notFull) && Distinct(s.notEmpty)
    && (forall t :: t in s.notFull <==> PhaseOf(s, t).ParkedPut?)
    && (forall t :: t in s.notEmpty <==> PhaseOf(s, t).ParkedGet?)
  }

  /** No wakeup is lost: while a consumer sleeps, every item is spoken for by a woken consumer, and
      while a producer sleeps, every free slot is spoken for by a woken producer. */
  ghost predicate NoLostWakeup<T>(s: State<T>, capacity: nat) {
    && (s.notEmpty != [] ==> |s.items| <= |WokenGetters(s)|)
    && (s.notFull != [] ==> capacity - |s.items| <= |WokenPutters(s)|)
  }

  /** What no exception can break: the bound, and first in, first out. */
  ghost predicate Ordered<T>(s: State<T>, capacity: nat) {
    Queues(s) && |s.items| <= capacity && s.accepted == s.delivered + s.items
  }

  ghost predicate Good<T>(s: State<T>, capacity: nat) {
    Ordered(s, capacity) && NoLostWakeup(s, capacity)
  }

  /** The wakeup a leaving thread was given is needed: another one of its kind sleeps, and there are
      only as many woken as there is work. */
  ghost predicate LosesWakeup<T>(s: State<T>, capacity: nat, t: Thread) {
    var phase := PhaseOf(s, t);
    || (phase == Getting(true) && s.notEmpty != [] && |s.items| == |WokenGetters(s)|)
    || (phase.Putting? && phase.woken && s.notFull != [] && capacity - |s.items| == |WokenPutters(s)|)
  }

  lemma TailDistinct(ts: seq<Thread>)
    requires Distinct(ts) && ts != []
    ensures Distinct(ts[1..]) && forall t :: t in ts[1..] <==> t in ts && t != ts[0]
  {
    assert ts == [ts[0]] + ts[1..];
  }

  lemma SnocDistinct(ts: seq<Thread>, t: Thread)
    requires Distinct(ts) && t !in ts
    ensures Distinct(ts + [t]) && forall x :: x in ts + [t] <==> x in ts || x == t
  {
  }

  /** Waking the first sleeping consumer adds one to the woken ones. */
  lemma WakeGetterKeeps<T>(s: State<T>)
    requires Queues(s)
    ensures Queues(WakeGetter(s)) && WokenPutters(WakeGetter(s)) == WokenPutters(s)
    ensures s.notEmpty != [] ==>
              WokenGetters(WakeGetter(s)) == WokenGetters(s) + {s.notEmpty[0]} && s.notEmpty[0] !in WokenGetters(s)
    ensures s.notEmpty == [] ==> WakeGetter(s) == s
  {
    if s.notEmpty != [] {
      assert s.notEmpty[0] in s.notEmpty;
      TailDistinct(s.notEmpty);
    }
  }

  lemma WakePutterKeeps<T>(s: State<T>)
    requires Queues(s)
    ensures Queues(WakePutter(s)) && WokenGetters(WakePutter(s)) == WokenGetters(s)
    ensures s.notFull != [] ==>
              WokenPutters(WakePutter(s)) == WokenPutters(s) + {s.notFull[0]} && s.notFull[0] !in WokenPutters(s)
    ensures s.notFull == [] ==> WakePutter(s) == s
  {
    if s.notFull != [] {
      assert s.notFull[0] in s.notFull;
      TailDistinct(s.notFull);
    }
  }

  /** Leaving a call changes no queue and gives up at most one wakeup. */
  lemma LeaveKeeps<T>(s: State<T>, t: Thread, s': State<T>)
    requires Queues(s) && (PhaseOf(s, t).Putting? || PhaseOf(s, t).Getting?)
    requires s'.phases == s.phases[t := Outside] && s'.notFull == s.notFull && s'.notEmpty == s.notEmpty
    ensures Queues(s')
    ensures WokenGetters(s') == WokenGetters(s) - {t} && WokenPutters(s') == WokenPutters(s) - {t}
    ensures PhaseOf(s, t).Putting? ==> t !in WokenGetters(s)
    ensures PhaseOf(s, t).Getting? ==> t !in WokenPutters(s)
  {
  }

  lemma SizeMinus(a: set<Thread>, t: Thread)
    ensures |a - {t}| >= |a| - 1 && (t !in a ==> a - {t} == a)
  {
    if t in a {
      assert |a - {t}| == |a| - 1;
    } else {
      assert a - {t} == a;
    }
  }

  /** Going to sleep as a producer: the buffer is full, so nothing is owed to anyone. */
  lemma PutParks<T>(s: State<T>, t: Thread, item: T, s': State<T>)
    requires Queues(s) && PhaseOf(s, t).Putting?
    requires s' == s.(phases := s.phases[t := ParkedPut(item)], notFull := s.notFull + [t])
    ensures Queues(s') && WokenGetters(s') == WokenGetters(s)
  {
    SnocDistinct(s.notFull, t);
  }

  lemma GetParks<T>(s: State<T>, t: Thread, s': State<T>)
    requires Queues(s) && PhaseOf(s, t).Getting?
    requires s' == s.(phases := s.phases[t := ParkedGet], notEmpty := s.notEmpty + [t])
    ensures Queues(s') && WokenPutters(s') == WokenPutters(s)
  {
    SnocDistinct(s.notEmpty, t);
  }

  lemma PutKeeps<T>(s: State<T>, capacity: nat, t: Thread)
    requires Ordered(s, capacity) && PhaseOf(s, t).Putting?
    ensures Ordered(PutSegment(s, capacity, t), capacity)
    ensures NoLostWakeup(s, capacity) ==> NoLostWakeup(PutSegment(s, capacity, t), capacity)
  {
    hide Queues, WokenGetters, WokenPutters, WakeGetter;
    var item := PhaseOf(s, t).item;
    if |s.items| == capacity {
      PutParks(s, t, item, PutSegment(s, capacity, t));
    } else {
      var mid := s.(items := s.items + [item], accepted := s.accepted + [item], phases := s.phases[t := Outside]);
      LeaveKeeps(s, t, mid);
      SizeMinus(WokenPutters(s), t);
      SizeMinus(WokenGetters(s), t);
      WakeGetterKeeps(mid);
      WakeGetterItems(mid);
      assert s.accepted + [item] == s.delivered + (s.items + [item]);
    }
  }

  lemma WakeGetterItems<T>(s: State<T>)
    ensures var r := WakeGetter(s);
            && r.items == s.items && r.accepted == s.accepted && r.delivered == s.delivered && r.notFull == s.notFull
            && r.notEmpty == if s.notEmpty == [] then [] else s.notEmpty[1..]
  {
  }

  lemma WakePutterItems<T>(s: State<T>)
    ensures var r := WakePutter(s);
            && r.items == s.items && r.accepted == s.accepted && r.delivered == s.delivered && r.notEmpty == s.notEmpty
            && r.notFull == if s.notFull == [] then [] else s.notFull[1..]
  {
  }

  lemma GetKeeps<T>(s: State<T>, capacity: nat, t: Thread)
    requires Ordered(s, capacity) && PhaseOf(s, t).Getting? && capacity > 0
    ensures Ordered(GetSegment(s, t), capacity)
    ensures NoLostWakeup(s, capacity) ==> NoLostWakeup(GetSegment(s, t), capacity)
  {
    hide Queues, WokenGetters, WokenPutters, WakePutter;
    if s.items == [] {
      GetParks(s, t, GetSegment(s, t));
    } else {
      var mid := s.(items := s.items[1..], delivered := s.delivered + [s.items[0]], phases := s.phases[t := Outside]);
      LeaveKeeps(s, t, mid);
      SizeMinus(WokenPutters(s), t);
      SizeMinus(WokenGetters(s), t);
      WakePutterKeeps(mid);
      WakePutterItems(mid);
      assert s.delivered + s.items == (s.delivered + [s.items[0]]) + s.items[1..];
    }
  }

  lemma StartKeeps<T>(s: State<T>, capacity: nat, t: Thread, phase: Phase<T>)
    requires Ordered(s, capacity) && PhaseOf(s, t).Outside?
    requires (phase.Putting? || phase.Getting?) && !phase.woken
    ensures var s' := s.(phases := s.phases[t := phase]);
            Ordered(s', capacity) && (NoLostWakeup(s, capacity) ==> NoLostWakeup(s', capacity))
  {
    var s' := s.(phases := s.phases[t := phase]);
    assert WokenGetters(s') == WokenGetters(s) && WokenPutters(s') == WokenPutters(s);
  }

  lemma {:induction false} WithoutMember(ts: seq<Thread>, t: Thread, x: Thread)
    ensures x in Without(ts, t) <==> x in ts && x != t
  {
    if ts != [] {
      WithoutMember(ts[1..], t, x);
      assert ts == [ts[0]] + ts[1..];
    }
  }

  lemma {:induction false} WithoutDistinct(ts: seq<Thread>, t: Thread)
    requires Distinct(ts)
    ensures Distinct(Without(ts, t)) && (t !in ts ==> Without(ts, t) == ts)
  {
    if ts != [] {
      TailDistinct(ts);
      WithoutDistinct(ts[1..], t);
      WithoutMember(ts[1..], t, ts[0]);
      if ts[0] != t {
        ConsDistinct(ts[0], Without(ts[1..], t));
      }
      assert ts == [ts[0]] + ts[1..];
    }
  }

  lemma ConsDistinct(x: Thread, rest: seq<Thread>)
    requires Distinct(rest) && x !in rest
    ensures Distinct([x] + rest)
  {
  }

  lemma WithoutMembers(ts: seq<Thread>, t: Thread)
    requires Distinct(ts)
    ensures var r := Without(ts, t);
            Distinct(r) && (forall x :: x in r <==> x in ts && x != t) && (t !in ts ==> r == ts)
  {
    hide *;
    WithoutDistinct(ts, t);
    forall x ensures x in Without(ts, t) <==> x in ts && x != t {
      WithoutMember(ts, t, x);
    }
  }

  lemma AbandonQueues<T>(s: State<T>, t: Thread)
    requires Queues(s) && Waits(PhaseOf(s, t))
    ensures Queues(AbandonSegment(s, t))
    ensures !PhaseOf(s, t).ParkedGet? ==> AbandonSegment(s, t).notEmpty == s.notEmpty
    ensures !PhaseOf(s, t).ParkedPut? ==> AbandonSegment(s, t).notFull == s.notFull
    ensures s.notEmpty == [] ==> AbandonSegment(s, t).notEmpty == []
    ensures s.notFull == [] ==> AbandonSegment(s, t).notFull == []
  {
    WithoutMembers(s.notFull, t);
    WithoutMembers(s.notEmpty, t);
    hide Distinct, Without;
  }

  lemma AbandonWoken<T>(s: State<T>, t: Thread)
    requires Waits(PhaseOf(s, t))
    ensures var r := AbandonSegment(s, t);
            WokenGetters(r) == WokenGetters(s) - {t} && WokenPutters(r) == WokenPutters(s) - {t}
    ensures PhaseOf(s, t) == Getting(true) <==> t in WokenGetters(s)
    ensures PhaseOf(s, t).Putting? && PhaseOf(s, t).woken <==> t in WokenPutters(s)
    ensures |WokenGetters(s) - {t}| == if t in WokenGetters(s) then |WokenGetters(s)| - 1 else |WokenGetters(s)|
    ensures |WokenPutters(s) - {t}| == if t in WokenPutters(s) then |WokenPutters(s)| - 1 else |WokenPutters(s)|
  {
    SizeMinus(WokenGetters(s), t);
    SizeMinus(WokenPutters(s), t);
  }

  /** A thread whose wait ends in an exception takes no wakeup with it, unless, and exactly if, it had
      been notified and the notification is needed. */
  lemma AbandonKeepsIff<T>(s: State<T>, capacity: nat, t: Thread)
    requires Good(s, capacity) && Waits(PhaseOf(s, t))
    ensures Good(AbandonSegment(s, t), capacity) <==> !LosesWakeup(s, capacity, t)
  {
    AbandonQueues(s, t);
    AbandonWoken(s, t);
    hide Queues, WokenGetters, WokenPutters, Without, Waits;
  }

  lemma LegalPrefix<T>(capacity: nat, run: seq<Event<T>>)
    requires Legal(capacity, run) && run != []
    ensures Legal(capacity, run[..|run| - 1]) && Enabled(Exec(capacity, run[..|run| - 1]), run[|run| - 1])
  {
    var before := run[..|run| - 1];
    assert forall i :: 0 <= i < |before| ==> before[..i] == run[..i] && before[i] == run[i];
  }

  lemma StepKeeps<T>(s: State<T>, capacity: nat, e: Event<T>)
    requires capacity > 0 && Ordered(s, capacity) && Enabled(s, e)
    ensures Ordered(Apply(s, capacity, e), capacity)
    ensures NoLostWakeup(s, capacity) && !(e.Abandon? && LosesWakeup(s, capacity, e.t)) ==>
              NoLostWakeup(Apply(s, capacity, e), capacity)
  {
    match e
    case StartPut(t, item) => StartKeeps(s, capacity, t, Putting(item, false));
    case StartGet(t) => StartKeeps(s, capacity, t, Getting(false));
    case RunPut(t) => PutKeeps(s, capacity, t);
    case RunGet(t) => GetKeeps(s, capacity, t);
    case Abandon(t) =>
      AbandonQueues(s, t);
      if NoLostWakeup(s, capacity) {
        AbandonKeepsIff(s, capacity, t);
      }
  }

  /** Every run of every schedule, whatever waits are abandoned: the capacity is kept and items come
      out in the order they went in. */
  lemma {:induction false} RunsAreOrdered<T>(capacity: nat, run: seq<Event<T>>)
    requires capacity > 0 && Legal(capacity, run)
    ensures Ordered(Exec(capacity, run), capacity)
  {
    if run != [] {
      LegalPrefix(capacity, run);
      RunsAreOrdered(capacity, run[..|run| - 1]);
      StepKeeps(Exec(capacity, run[..|run| - 1]), capacity, run[|run| - 1]);
    }
  }

  /** No wait of the run is abandoned that had been given a wakeup others need. */
  ghost predicate Patient<T>(capacity: nat, run: seq<Event<T>>) {
    forall i :: 0 <= i < |run| && run[i].Abandon? ==> !LosesWakeup(Exec(capacity, run[..i]), capacity, run[i].t)
  }

  lemma PatientPrefix<T>(capacity: nat, run: seq<Event<T>>)
    requires Patient(capacity, run) && run != []
    ensures Patient(capacity, run[..|run| - 1])
    ensures run[|run| - 1].Abandon? ==> !LosesWakeup(Exec(capacity, run[..|run| - 1]), capacity, run[|run| - 1].t)
  {
    var before := run[..|run| - 1];
    assert forall i :: 0 <= i < |before| ==> before[..i] == run[..i] && before[i] == run[i];
  }

  /** Over every such run no wakeup is lost. */
  lemma {:induction false} RunsAreGood<T>(capacity: nat, run: seq<Event<T>>)
    requires capacity > 0 && Legal(capacity, run) && Patient(capacity, run)
    ensures Good(Exec(capacity, run), capacity)
  {
    if run == [] {
      assert WokenGetters(Initial<T>()) == {};
    } else {
      LegalPrefix(capacity, run);
      PatientPrefix(capacity, run);
      RunsAreGood(capacity, run[..|run| - 1]);
      StepKeeps(Exec(capacity, run[..|run| - 1]), capacity, run[|run| - 1]);
    }
  }

  /** When nobody can run, nobody sleeps next to work: sleeping consumers mean an empty buffer,
      sleeping producers a full one, so the two never sleep at once. */
  lemma NeverStuckWithWork<T>(capacity: nat, run: seq<Event<T>>)
    requires capacity > 0 && Legal(capacity, run) && Patient(capacity, run)
    requires forall t :: !PhaseOf(Exec(capacity, run), t).Putting? && !PhaseOf(Exec(capacity, run), t).Getting?
    ensures var s := Exec(capacity, run);
            && (s.notEmpty != [] ==> s.items == [])
            && (s.notFull != [] ==> |s.items| == capacity)
            && (s.notEmpty == [] || s.notFull == [])
  {
    RunsAreGood(capacity, run);
    var s := Exec(capacity, run);
    assert forall t :: t in s.phases ==> PhaseOf(s, t) == s.phases[t];
    assert WokenGetters(s) == {} && WokenPutters(s) == {};
  }

  /** A sleeping consumer next to an item means a woken consumer that can run; likewise producers. */
  lemma SleepersAreServed<T>(capacity: nat, run: seq<Event<T>>)
    requires capacity > 0 && Legal(capacity, run) && Patient(capacity, run)
    ensures var s := Exec(capacity, run);
            && (s.notEmpty != [] && s.items != [] ==> exists t :: PhaseOf(s, t) == Getting(true))
            && (s.notFull != [] && |s.items| < capacity ==> exists t :: PhaseOf(s, t).Putting? && PhaseOf(s, t).woken)
  {
    RunsAreGood(capacity, run);
    var s := Exec(capacity, run);
    if s.notEmpty != [] && s.items != [] {
      var t :| t in WokenGetters(s);
      assert PhaseOf(s, t) == Getting(true);
    }
    if s.notFull != [] && |s.items| < capacity {
      var t :| t in WokenPutters(s);
      assert PhaseOf(s, t).Putting? && PhaseOf(s, t).woken;
    }
  }

  /** A notified consumer that gives up can leave an item and a sleeping consumer behind, with nobody
      left to run: two consumers sleep, one item arrives and wakes the first, and the first leaves. */
  lemma AbandonStrandsConsumer<T>(capacity: nat, item: T)
    requires capacity > 0
    ensures exists run :: Legal(capacity, run) && StuckConsumer(Exec(capacity, run), 2, item)
  {
    hide *;
    var run := FirstSleeps<T>(capacity);
    run := SecondSleeps(capacity, run);
    run := ItemArrives(capacity, run, item);
    run := FirstLeaves(capacity, run, item);
  }

  ghost predicate StuckConsumer<T>(s: State<T>, t: Thread, item: T) {
    s.items == [item] && PhaseOf(s, t) == ParkedGet && forall u :: u != t ==> PhaseOf(s, u) == Outside
  }

  lemma Begin<T>(capacity: nat)
    ensures Legal<T>(capacity, []) && Exec<T>(capacity, []) == Initial()
  {
  }

  lemma FirstSleeps<T>(capacity: nat) returns (run: seq<Event<T>>)
    ensures Legal(capacity, run) && Exec(capacity, run) == State([], [], [1], map[1 := ParkedGet], [], [])
  {
    Begin<T>(capacity);
    hide Exec, Legal;
    run := Extend(capacity, [], Initial<T>(), StartGet(1), State([], [], [], map[1 := Getting(false)], [], []));
    run := Extend(capacity, run, Exec(capacity, run), RunGet(1), State([], [], [1], map[1 := ParkedGet], [], []));
  }

  lemma SecondSleeps<T>(capacity: nat, start: seq<Event<T>>) returns (run: seq<Event<T>>)
    requires Legal(capacity, start) && Exec(capacity, start) == State([], [], [1], map[1 := ParkedGet], [], [])
    ensures Legal(capacity, run) && Exec(capacity, run) ==
            State([], [], [1, 2], map[1 := ParkedGet, 2 := ParkedGet], [], [])
  {
    hide Exec, Legal;
    run := Extend(capacity, start, Exec(capacity, start), StartGet(2),
                  State([], [], [1], map[1 := ParkedGet, 2 := Getting(false)], [], []));
    run := Extend(capacity, run, Exec(capacity, run), RunGet(2),
                  State([], [], [1, 2], map[1 := ParkedGet, 2 := ParkedGet], [], []));
  }

  lemma ItemArrives<T>(capacity: nat, start: seq<Event<T>>, item: T) returns (run: seq<Event<T>>)
    requires capacity > 0 && Legal(capacity, start)
    requires Exec(capacity, start) == State([], [], [1, 2], map[1 := ParkedGet, 2 := ParkedGet], [], [])
    ensures Legal(capacity, run)
    ensures Exec(capacity, run) == State([item], [], [2], map[1 := Getting(true), 2 := ParkedGet, 3 := Outside], [item],
                                         [])
  {
    hide Exec, Legal;
    run := Extend(capacity, start, Exec(capacity, start), StartPut(3, item),
                  State([], [], [1, 2], map[1 := ParkedGet, 2 := ParkedGet, 3 := Putting(item, false)], [], []));
    run := Extend(capacity, run, Exec(capacity, run), RunPut(3),
                  State([item], [], [2], map[1 := Getting(true), 2 := ParkedGet, 3 := Outside], [item], []));
  }

  lemma FirstLeaves<T>(capacity: nat, start: seq<Event<T>>, item: T) returns (run: seq<Event<T>>)
    requires Legal(capacity, start)
    requires Exec(capacity, start) ==
             State([item], [], [2], map[1 := Getting(true), 2 := ParkedGet, 3 := Outside], [item], [])
    ensures Legal(capacity, run) && StuckConsumer(Exec(capacity, run), 2, item)
  {
    hide Exec, Legal;
    run := Extend(capacity, start, Exec(capacity, start), Abandon(1),
                  State([item], [], [2], map[1 := Outside, 2 := ParkedGet, 3 := Outside], [item], []));
  }

  lemma Extend<T>(capacity: nat, run: seq<Event<T>>, s: State<T>, e: Event<T>, s': State<T>)
      returns (more: seq<Event<T>>)
    requires Legal(capacity, run) && Exec(capacity, run) == s && Enabled(s, e) && Apply(s, capacity, e) == s'
    ensures Legal(capacity, more) && Exec(capacity, more) == s'
  {
    more := run + [e];
    assert more[..|run|] == run;
    assert forall i :: 0 <= i < |run| ==> more[..i] == run[..i] && more[i] == run[i];
  }

  // ---------------------------------------------------------------- the class

  /** The lock-held stretches of `put` and `get`, as the code runs them. */
  class Buffer<T> {
    const capacity: nat
    var items: seq<T>
    var notFull: seq<Thread>
    var notEmpty: seq<Thread>
    var phases: map<Thread, Phase<T>>
    ghost var accepted: seq<T>
    ghost var delivered: seq<T>

    ghost function Snap(): (s: State<T>)
      reads this
    {
      State(items, notFull, notEmpty, phases, accepted, delivered)
    }

    constructor (capacity: nat)
      requires capacity > 0
      ensures this.capacity == capacity && Snap() == Initial()
    {
      this.capacity := capacity;
      items, notFull, notEmpty, phases, accepted, delivered := [], [], [], map[], [], [];
    }

    /** From taking the lock in `put` to giving it up: by returning, or inside `wait`. */
    method Put(t: Thread) returns (done: bool)
      requires t in phases && phases[t].Putting? && Ordered(Snap(), capacity)
      modifies this
      ensures Snap() == PutSegment(old(Snap()), capacity, t) && Ordered(Snap(), capacity)
      ensures done <==> |old(items)| < capacity
      ensures done ==> items == old(items) + [old(phases[t].item)]
    {
      PutKeeps(Snap(), capacity, t);
      hide Ordered, Queues, NoLostWakeup;
      var item := phases[t].item;
      if |items| == capacity {
        notFull := notFull + [t];
        phases := phases[t := ParkedPut(item)];
        return false;
      }
      items := items + [item];
      accepted := accepted + [item];
      phases := phases[t := Outside];
      if notEmpty != [] {
        phases := phases[notEmpty[0] := Getting(true)];
        notEmpty := notEmpty[1..];
      }
      FullOrNot(old(Snap()), capacity);
      return true;
    }

    lemma FullOrNot(s: State<T>, capacity: nat)
      requires Ordered(s, capacity)
      ensures |s.items| <= capacity
    {
    }

    method Get(t: Thread) returns (taken: seq<T>)
      requires t in phases && phases[t].Getting? && Ordered(Snap(), capacity) && capacity > 0
      modifies this
      ensures Snap() == GetSegment(old(Snap()), t) && Ordered(Snap(), capacity)
      ensures old(items) == taken + items && |taken| <= 1 && (taken == [] <==> old(items) == [])
    {
      GetKeeps(Snap(), capacity, t);
      hide Ordered, Queues, NoLostWakeup;
      if items == [] {
        notEmpty := notEmpty + [t];
        phases := phases[t := ParkedGet];
        return [];
      }
      taken := [items[0]];
      delivered := delivered + [items[0]];
      items := items[1..];
      phases := phases[t := Outside];
      if notFull != [] {
        var first := notFull[0];
        var phase := if first in phases then phases[first] else Outside;
        phases := phases[first := if phase.ParkedPut? then Putting(phase.item, true) else phase];
        notFull := notFull[1..];
      }
    }
  }
}
