/** A writer-preferring read-write lock on one condition variable, one lock-held stretch per step. */
module ReadWriteLock {

  type Thread = nat

  datatype Phase = Outside
                 | WantsRead(woken: bool) | ParkedRead | Reading
                 | WantsWrite | WokenWrite | ParkedWrite | Writing

  datatype State = State(readers: int, writer: bool, waitingWriters: int, phases: map<Thread, Phase>)

  /** `Abandon` is a `wait` that ends in an exception, before or after a notification. For a writer the
      `finally` takes it off the queue; nobody is told. */
  datatype Event = StartRead(t: Thread) | RunRead(t: Thread) | EndRead(t: Thread)
                 | StartWrite(t: Thread) | RunWrite(t: Thread) | EndWrite(t: Thread)
                 | Abandon(t: Thread)

  const INITIAL: State := State(0, false, 0, map[])

  function PhaseOf(s: State, t: Thread): Phase {
    if t in s.phases then s.phases[t] else Outside
  }

  function In(s: State, t: Thread, phase: Phase): State {
    s.(phases := s.phases[t := phase])
  }

  // ---------------------------------------------------------------- steps

  function Woken(phase: Phase): Phase {
    if phase == ParkedRead then WantsRead(true) else if phase == ParkedWrite then WokenWrite else phase
  }

  /** `notify_all()`. */
  function WakeAll(s: State): State {
    s.(phases := map t | t in s.phases :: Woken(s.phases[t]))
  }

  function RunReadSegment(s: State, t: Thread): State {
    if s.writer || s.waitingWriters != 0 then In(s, t, ParkedRead)
    else In(s, t, Reading).(readers := s.readers + 1)
  }

  function EndReadSegment(s: State, t: Thread): State {
    var left := In(s, t, Outside).(readers := s.readers - 1);
    if left.readers == 0 then WakeAll(left) else left
  }

  /** A fresh writer joins the queue of waiting writers first; a woken one is in it already. */
  function RunWriteSegment(s: State, t: Thread): State {
    var queued := if PhaseOf(s, t) == WantsWrite then s.waitingWriters + 1 else s.waitingWriters;
    if s.writer || s.readers != 0 then In(s, t, ParkedWrite).(waitingWriters := queued)
    else In(s, t, Writing).(waitingWriters := queued - 1, writer := true)
  }

  function EndWriteSegment(s: State, t: Thread): State {
    WakeAll(In(s, t, Outside).(writer := false))
  }

  /** Queued to write, asleep or woken. */
  predicate QueuedWriter(phase: Phase) {
    phase == ParkedWrite || phase == WokenWrite
  }

  function AbandonSegment(s: State, t: Thread): State {
    In(s, t, Outside).(waitingWriters := if QueuedWriter(PhaseOf(s, t)) then s.waitingWriters - 1 else s.waitingWriters)
  }

  predicate Enabled(s: State, e: Event) {
    match e
    case StartRead(t) => PhaseOf(s, t).Outside?
    case RunRead(t) => PhaseOf(s, t).WantsRead?
    case EndRead(t) => PhaseOf(s, t).Reading?
    case StartWrite(t) => PhaseOf(s, t).Outside?
    case RunWrite(t) => PhaseOf(s, t).WantsWrite? || PhaseOf(s, t).WokenWrite?
    case EndWrite(t) => PhaseOf(s, t).Writing?
    case Abandon(t) => QueuedWriter(PhaseOf(s, t)) || PhaseOf(s, t) == ParkedRead || PhaseOf(s, t) == WantsRead(true)
  }

  function Apply(s: State, e: Event): State {
    match e
    case StartRead(t) => In(s, t, WantsRead(false))
    case RunRead(t) => RunReadSegment(s, t)
    case EndRead(t) => EndReadSegment(s, t)
    case StartWrite(t) => In(s, t, WantsWrite)
    case RunWrite(t) => RunWriteSegment(s, t)
    case EndWrite(t) => EndWriteSegment(s, t)
    case Abandon(t) => AbandonSegment(s, t)
  }

  function Exec(run: seq<Event>): State {
    if run == [] then INITIAL else Apply(Exec(run[..|run| - 1]), run[|run| - 1])
  }

  ghost predicate Legal(run: seq<Event>) {
    forall i :: 0 <= i < |run| ==> Enabled(Exec(run[..i]), run[i])
  }

  // ---------------------------------------------------------------- invariants

  ghost function Readers(s: State): set<Thread> {
    set t | t in s.phases && s.phases[t] == Reading
  }

  ghost function Writers(s: State): set<Thread> {
    set t | t in s.phases && s.phases[t] == Writing
  }

  ghost function Waiting(s: State): set<Thread> {
    set t | t in s.phases && (s.phases[t] == ParkedWrite || s.phases[t] == WokenWrite)
  }

  /** The three counters count what they should, and readers and a writer never overlap. */
  ghost predicate Counted(s: State) {
    && s.readers == |Readers(s)| && s.waitingWriters == |Waiting(s)|
    && |Writers(s)| == (if s.writer then 1 else 0)
    && !(s.writer && s.readers > 0)
  }

  /** A sleeping writer means somebody holds the lock, and will wake it on the way out. */
  ghost predicate WritersServed(s: State) {
    forall t :: PhaseOf(s, t) == ParkedWrite ==> s.writer || s.readers > 0
  }

  /** A sleeping reader means a writer is inside or queued, and will wake it in turn. */
  ghost predicate ReadersServed(s: State) {
    forall t :: PhaseOf(s, t) == ParkedRead ==> s.writer || s.waitingWriters > 0
  }

  /** How one thread's change of phase moves it between the counted sets. */
  lemma Moved(s: State, t: Thread, phase: Phase)
    ensures var s' := In(s, t, phase);
            && Readers(s') == (if phase == Reading then Readers(s) + {t} else Readers(s) - {t})
            && Writers(s') == (if phase == Writing then Writers(s) + {t} else Writers(s) - {t})
            && Waiting(s') == (if phase == ParkedWrite || phase == WokenWrite then Waiting(s) + {t}
                               else Waiting(s) - {t})
    ensures t in Readers(s) <==> PhaseOf(s, t) == Reading
    ensures t in Writers(s) <==> PhaseOf(s, t) == Writing
    ensures t in Waiting(s) <==> PhaseOf(s, t) == ParkedWrite || PhaseOf(s, t) == WokenWrite
  {
  }

  lemma WakeKeeps(s: State)
    ensures Readers(WakeAll(s)) == Readers(s) && Writers(WakeAll(s)) == Writers(s) && Waiting(WakeAll(s)) == Waiting(s)
    ensures forall t :: PhaseOf(WakeAll(s), t) != ParkedRead && PhaseOf(WakeAll(s), t) != ParkedWrite
  {
  }

  lemma Sizes(a: set<Thread>, t: Thread)
    ensures |a + {t}| == if t in a then |a| else |a| + 1
    ensures |a - {t}| == if t in a then |a| - 1 else |a|
  {
    if t in a {
      assert a + {t} == a;
    } else {
      assert a - {t} == a;
    }
  }

  lemma AllSizes(s: State, t: Thread)
    ensures |Readers(s) + {t}| == if t in Readers(s) then |Readers(s)| else |Readers(s)| + 1
    ensures |Readers(s) - {t}| == if t in Readers(s) then |Readers(s)| - 1 else |Readers(s)|
    ensures |Writers(s) + {t}| == if t in Writers(s) then |Writers(s)| else |Writers(s)| + 1
    ensures |Writers(s) - {t}| == if t in Writers(s) then |Writers(s)| - 1 else |Writers(s)|
    ensures |Waiting(s) + {t}| == if t in Waiting(s) then |Waiting(s)| else |Waiting(s)| + 1
    ensures |Waiting(s) - {t}| == if t in Waiting(s) then |Waiting(s)| - 1 else |Waiting(s)|
  {
    Sizes(Readers(s), t);
    Sizes(Writers(s), t);
    Sizes(Waiting(s), t);
  }

  /** A thread that is counted makes its counter positive. */
  lemma Positive(s: State, t: Thread)
    ensures PhaseOf(s, t) == Reading ==> |Readers(s)| >= 1
    ensures PhaseOf(s, t) == Writing ==> |Writers(s)| >= 1
    ensures PhaseOf(s, t) == ParkedWrite || PhaseOf(s, t) == WokenWrite ==> |Waiting(s)| >= 1
  {
    AllSizes(s, t);
    Moved(s, t, Outside);
  }

  /** Moving one thread and adjusting the counters to match keeps them right. */
  lemma CountedMove(s: State, t: Thread, phase: Phase, s': State)
    requires Counted(s) && s'.phases == s.phases[t := phase]
    requires s'.readers == s.readers + (if phase == Reading then 1 else 0) - (if PhaseOf(s, t) == Reading then 1 else 0)
    requires s'.waitingWriters == s.waitingWriters + (if phase == ParkedWrite || phase == WokenWrite then 1 else 0)
                                  - (if PhaseOf(s, t) == ParkedWrite || PhaseOf(s, t) == WokenWrite then 1 else 0)
    requires (if s'.writer then 1 else 0) ==
             (if s.writer then 1 else 0) + (if phase == Writing then 1 else 0) - (if PhaseOf(s, t) == Writing then 1
                     else 0)
    requires !(s'.writer && s'.readers > 0)
    ensures Counted(s')
  {
    AllSizes(s, t);
    Moved(s, t, phase);
    SameSets(In(s, t, phase), s');
    hide Readers, Writers, Waiting;
  }

  lemma CountedWake(s: State)
    requires Counted(s)
    ensures Counted(WakeAll(s))
  {
    WakeKeeps(s);
  }

  /** The counters depend on the phases alone. */
  lemma SameSets(a: State, b: State)
    requires a.phases == b.phases
    ensures Readers(a) == Readers(b) && Writers(a) == Writers(b) && Waiting(a) == Waiting(b)
  {
  }

  lemma CountedStep(s: State, e: Event)
    requires Counted(s) && Enabled(s, e)
    ensures Counted(Apply(s, e))
  {
    var t := e.t;
    Positive(s, t);
    assert s.waitingWriters >= 0 && s.readers >= 0;
    assert s.writer <==> |Writers(s)| == 1;
    match e
    case StartRead(_) => CountedMove(s, t, WantsRead(false), Apply(s, e));
    case RunRead(_) => CountedMove(s, t, if s.writer || s.waitingWriters != 0 then ParkedRead
                                   else Reading, Apply(s, e));
    case EndRead(_) =>
      var left := In(s, t, Outside).(readers := s.readers - 1);
      CountedMove(s, t, Outside, left);
      CountedWake(left);
    case StartWrite(_) => CountedMove(s, t, WantsWrite, Apply(s, e));
    case RunWrite(_) => CountedMove(s, t, if s.writer || s.readers != 0 then ParkedWrite else Writing, Apply(s, e));
    case EndWrite(_) =>
      var left := In(s, t, Outside).(writer := false);
      CountedMove(s, t, Outside, left);
      CountedWake(left);
    case Abandon(_) => CountedMove(s, t, Outside, Apply(s, e));
  }

  lemma WritersServedStep(s: State, e: Event)
    requires Counted(s) && WritersServed(s) && Enabled(s, e)
    ensures WritersServed(Apply(s, e))
  {
    var s' := Apply(s, e);
    Positive(s, e.t);
    WakeKeeps(In(s, e.t, Outside).(readers := s.readers - 1));
    WakeKeeps(In(s, e.t, Outside).(writer := false));
    hide WakeAll, Readers, Writers, Waiting;
    forall t | PhaseOf(s', t) == ParkedWrite ensures s'.writer || s'.readers > 0 {
      assert t != e.t ==> PhaseOf(s, t) == ParkedWrite;
    }
  }

  /** The last queued writer walks away while a reader sleeps and nobody is inside as a writer. */
  ghost predicate Strands(s: State, e: Event) {
    && e.Abandon? && QueuedWriter(PhaseOf(s, e.t)) && s.waitingWriters == 1
    && !s.writer && exists t :: PhaseOf(s, t) == ParkedRead
  }

  /** A step keeps sleeping readers served unless, and exactly if not, it strands them. */
  lemma ReadersServedStep(s: State, e: Event)
    requires Counted(s) && ReadersServed(s) && Enabled(s, e)
    ensures ReadersServed(Apply(s, e)) <==> !Strands(s, e)
  {
    var s' := Apply(s, e);
    Positive(s, e.t);
    WakeKeeps(In(s, e.t, Outside).(readers := s.readers - 1));
    WakeKeeps(In(s, e.t, Outside).(writer := false));
    assert s.waitingWriters >= 0;
    hide WakeAll, Readers, Writers, Waiting;
    if Strands(s, e) {
      var t :| PhaseOf(s, t) == ParkedRead;
      assert PhaseOf(s', t) == ParkedRead;
    } else {
      forall t | PhaseOf(s', t) == ParkedRead ensures s'.writer || s'.waitingWriters > 0 {
        assert t != e.t ==> PhaseOf(s, t) == ParkedRead;
      }
    }
  }

  // ---------------------------------------------------------------- whole runs

  /** In every run, even with writers that walk away: readers and writers never overlap, and a free
      lock leaves no writer asleep. */
  lemma {:induction false} RunsExclude(run: seq<Event>)
    requires Legal(run)
    ensures Counted(Exec(run)) && WritersServed(Exec(run))
  {
    if run == [] {
      assert Readers(INITIAL) == {} && Writers(INITIAL) == {} && Waiting(INITIAL) == {};
    } else {
      LegalPrefix(run);
      RunsExclude(run[..|run| - 1]);
      CountedStep(Exec(run[..|run| - 1]), run[|run| - 1]);
      WritersServedStep(Exec(run[..|run| - 1]), run[|run| - 1]);
    }
  }

  lemma LegalPrefix(run: seq<Event>)
    requires Legal(run) && run != []
    ensures Legal(run[..|run| - 1]) && Enabled(Exec(run[..|run| - 1]), run[|run| - 1])
  {
    var n := |run| - 1;
    assert forall i :: 0 <= i < n ==> run[..n][..i] == run[..i] && run[..n][i] == run[i];
  }

  /** No step of the run strands sleeping readers. */
  ghost predicate Patient(run: seq<Event>) {
    forall i :: 0 <= i < |run| ==> !Strands(Exec(run[..i]), run[i])
  }

  lemma PatientPrefix(run: seq<Event>)
    requires Patient(run) && run != []
    ensures Patient(run[..|run| - 1]) && !Strands(Exec(run[..|run| - 1]), run[|run| - 1])
  {
    hide Strands;
    var n := |run| - 1;
    assert forall i :: 0 <= i < n ==> run[..n][..i] == run[..i] && run[..n][i] == run[i];
  }

  /** In such runs a free lock leaves no reader asleep without a queued writer to wake it. */
  lemma {:induction false} PatientRunsServeReaders(run: seq<Event>)
    requires Legal(run) && Patient(run)
    ensures ReadersServed(Exec(run))
  {
    if run != [] {
      hide Strands, Patient;
      LegalPrefix(run);
      PatientPrefix(run);
      RunsExclude(run[..|run| - 1]);
      PatientRunsServeReaders(run[..|run| - 1]);
      ReadersServedStep(Exec(run[..|run| - 1]), run[|run| - 1]);
    }
  }

  /** Never more than one writer, never a writer with a reader. */
  lemma NoOverlap(run: seq<Event>, a: Thread, b: Thread)
    requires Legal(run) && a != b && PhaseOf(Exec(run), a) == Writing
    ensures PhaseOf(Exec(run), b) != Writing && PhaseOf(Exec(run), b) != Reading
  {
    var s := Exec(run);
    RunsExclude(run);
    Positive(s, a);
    Positive(s, b);
    if PhaseOf(s, b) == Writing {
      assert a in Writers(s) && b in Writers(s);
      Sizes(Writers(s), a);
      assert b in Writers(s) - {a};
      Sizes(Writers(s) - {a}, b);
    }
  }

  /** When the lock is free and no woken writer is about to take it, nobody sleeps. */
  lemma FreeLockSleepsNobody(run: seq<Event>, t: Thread)
    requires Legal(run) && Patient(run)
    requires !Exec(run).writer && Exec(run).readers == 0 && forall u :: PhaseOf(Exec(run), u) != WokenWrite
    ensures PhaseOf(Exec(run), t) != ParkedRead && PhaseOf(Exec(run), t) != ParkedWrite
  {
    hide Exec, Legal, Patient;
    var s := Exec(run);
    RunsExclude(run);
    PatientRunsServeReaders(run);
    if PhaseOf(s, t) == ParkedRead {
      assert |Waiting(s)| > 0;
      var w :| w in Waiting(s);
      Moved(s, w, Outside);
    }
  }

  lemma OneMore(run: seq<Event>, e: Event)
    requires Legal(run) && Enabled(Exec(run), e)
    ensures Legal(run + [e]) && Exec(run + [e]) == Apply(Exec(run), e)
  {
    var more := run + [e];
    assert more[..|run|] == run;
    assert forall i :: 0 <= i < |run| ==> more[..i] == run[..i] && more[i] == run[i];
  }

  /** A writer that walks away can leave a reader asleep on a lock that nobody holds or wants: the
      first reader wakes both on its way out, the second sees a queued writer and sleeps again, and
      then that writer leaves without a word. */
  lemma AbandonStrandsReader()
    ensures exists run :: Legal(run) && PhaseOf(Exec(run), 3) == ParkedRead && !Exec(run).writer &&
              Exec(run).readers == 0
                          && forall t :: t != 3 ==> PhaseOf(Exec(run), t) == Outside
  {
    hide *;
    var run := ReaderInWriterWaits();
    run := SecondReaderWaits(run);
    run := WriterWalksAway(run);
    Stranded();
  }

  lemma ReaderInWriterWaits() returns (run: seq<Event>)
    ensures Legal(run) && Exec(run) == State(1, false, 1, map[1 := Reading, 2 := ParkedWrite])
  {
    Begin();
    hide Exec, Legal;
    run := Extend([], INITIAL, StartRead(1), State(0, false, 0, map[1 := WantsRead(false)]));
    run := Extend(run, Exec(run), RunRead(1), State(1, false, 0, map[1 := Reading]));
    run := Extend(run, Exec(run), StartWrite(2), State(1, false, 0, map[1 := Reading, 2 := WantsWrite]));
    run := Extend(run, Exec(run), RunWrite(2), State(1, false, 1, map[1 := Reading, 2 := ParkedWrite]));
  }

  lemma SecondReaderWaits(start: seq<Event>) returns (run: seq<Event>)
    requires Legal(start) && Exec(start) == State(1, false, 1, map[1 := Reading, 2 := ParkedWrite])
    ensures Legal(run) && Exec(run) == State(0, false, 1, map[1 := Outside, 2 := WokenWrite, 3 := WantsRead(true)])
  {
    WokenOnExit();
    hide Exec, Legal, WakeAll, EndReadSegment;
    run := Extend(start, Exec(start), StartRead(3),
                  State(1, false, 1, map[1 := Reading, 2 := ParkedWrite, 3 := WantsRead(false)]));
    run := Extend(run, Exec(run), RunRead(3), State(1, false, 1, map[1 := Reading, 2 := ParkedWrite, 3 := ParkedRead]));
    run := Extend(run, Exec(run), EndRead(1),
                  State(0, false, 1, map[1 := Outside, 2 := WokenWrite, 3 := WantsRead(true)]));
  }

  lemma WriterWalksAway(start: seq<Event>) returns (run: seq<Event>)
    requires Legal(start) && Exec(start) == State(0, false, 1, map[1 := Outside, 2 := WokenWrite, 3 := WantsRead(true)])
    ensures Legal(run) && Exec(run) == State(0, false, 0, map[1 := Outside, 2 := Outside, 3 := ParkedRead])
  {
    hide Exec, Legal;
    run := Extend(start, Exec(start), RunRead(3),
                  State(0, false, 1, map[1 := Outside, 2 := WokenWrite, 3 := ParkedRead]));
    run := Extend(run, Exec(run), Abandon(2), State(0, false, 0, map[1 := Outside, 2 := Outside, 3 := ParkedRead]));
  }

  lemma Stranded()
    ensures var s := State(0, false, 0, map[1 := Outside, 2 := Outside, 3 := ParkedRead]);
            PhaseOf(s, 3) == ParkedRead && forall t :: t != 3 ==> PhaseOf(s, t) == Outside
  {
  }

  lemma Begin()
    ensures Legal([]) && Exec([]) == INITIAL
  {
  }

  lemma WokenOnExit()
    ensures Apply(State(1, false, 1, map[1 := Reading, 2 := ParkedWrite, 3 := ParkedRead]), EndRead(1)) ==
            State(0, false, 1, map[1 := Outside, 2 := WokenWrite, 3 := WantsRead(true)])
  {
    var left := State(0, false, 1, map[1 := Outside, 2 := ParkedWrite, 3 := ParkedRead]);
    var phases: map<Thread, Phase> := map[1 := Outside, 2 := WokenWrite, 3 := WantsRead(true)];
    assert WakeAll(left).phases == phases;
    assert In(State(1, false, 1, map[1 := Reading, 2 := ParkedWrite, 3 := ParkedRead]), 1, Outside).phases ==
           left.phases;
  }

  lemma Extend(run: seq<Event>, s: State, e: Event, s': State) returns (more: seq<Event>)
    requires Legal(run) && Exec(run) == s && Enabled(s, e) && Apply(s, e) == s'
    ensures Legal(more) && Exec(more) == s'
  {
    OneMore(run, e);
    more := run + [e];
  }
}
