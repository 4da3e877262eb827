/** The hybrid logical clock over the same runs: causal like a logical clock, close to a physical one. */
module HybridClock {
  import opened LogicalClocks

  datatype Hybrid = Hybrid(physical: int, logical: nat)

  datatype Result<+T> = Ok(value: T) | TooFarAhead

  const ZERO: Hybrid := Hybrid(0, 0)

  /** Lexicographic. */
  predicate Precedes(a: Hybrid, b: Hybrid) {
    a.physical < b.physical || (a.physical == b.physical && a.logical < b.logical)
  }

  function MaxInt(a: int, b: int): int {
    if a >= b then a else b
  }

  function Now(last: Hybrid, physical: int): Hybrid {
    if physical > last.physical then Hybrid(physical, 0) else Hybrid(last.physical, last.logical + 1)
  }

  /** The stamp of a receipt, when the remote stamp is not refused. */
  function Update(last: Hybrid, remote: Hybrid, physical: int): Hybrid {
    var newest := MaxInt(MaxInt(last.physical, remote.physical), physical);
    if newest == last.physical && last.physical == remote.physical
       then Hybrid(newest, Max(last.logical, remote.logical) + 1)
    else if newest == last.physical then Hybrid(newest, last.logical + 1)
    else if newest == remote.physical then Hybrid(newest, remote.logical + 1)
    else Hybrid(newest, 0)
  }

  /** A stamp is after everything it had to be after. */
  lemma StampsAdvance(last: Hybrid, remote: Hybrid, physical: int)
    ensures Precedes(last, Now(last, physical))
    ensures Precedes(last, Update(last, remote, physical)) && Precedes(remote, Update(last, remote, physical))
  {
  }

  class HybridLogicalClock {
    const maxDriftMs: int
    var last: Hybrid

    constructor (maxDriftMs: int)
      requires maxDriftMs > 0
      ensures this.maxDriftMs == maxDriftMs && last == ZERO
    {
      this.maxDriftMs, last := maxDriftMs, ZERO;
    }

    /** Stamp a local event, given what the physical clock reads. */
    method Stamp(physical: int) returns (t: Hybrid)
      modifies this
      ensures t == last == Now(old(last), physical) && Precedes(old(last), t) && t.physical >= physical
    {
      if physical > last.physical {
        last := Hybrid(physical, 0);
      } else {
        last := Hybrid(last.physical, last.logical + 1);
      }
      return last;
    }

    /** Stamp a receipt, or refuse a stamp from too far ahead and change nothing. */
    method Receive(remote: Hybrid, physical: int) returns (r: Result<Hybrid>)
      modifies this
      ensures r.TooFarAhead? <==> remote.physical - physical > maxDriftMs
      ensures r.TooFarAhead? ==> last == old(last)
      ensures r.Ok? ==> r.value == last == Update(old(last), remote, physical)
                        && Precedes(old(last), last) && Precedes(remote, last) && last.physical >= physical
    {
      if remote.physical - physical > maxDriftMs {
        return TooFarAhead;
      }
      var newest := MaxInt(MaxInt(last.physical, remote.physical), physical);
      var logical: nat;
      if newest == last.physical && last.physical == remote.physical {
        logical := Max(last.logical, remote.logical) + 1;
      } else if newest == last.physical {
        logical := last.logical + 1;
      } else if newest == remote.physical {
        logical := remote.logical + 1;
      } else {
        logical := 0;
      }
      last := Hybrid(newest, logical);
      return Ok(last);
    }
  }

  // ---------------------------------------------------------------- whole runs

  /** The stamp of event `i`, when the physical clock of its node reads `at[i]`. */
  function HlcStamp(run: Run, at: seq<int>, i: nat): Hybrid
    requires i < |run| == |at|
    decreases i, 1
  {
    var last := NodeHlc(run, at, i, run[i].node);
    if run[i].Deliver? && run[i].from < i then Update(last, HlcStamp(run, at, run[i].from), at[i]) else Now(last, at[i])
  }

  function NodeHlc(run: Run, at: seq<int>, i: nat, n: string): Hybrid
    requires i <= |run| == |at|
    decreases i, 0
  {
    if i == 0 then ZERO else if run[i - 1].node == n then HlcStamp(run, at, i - 1) else NodeHlc(run, at, i - 1, n)
  }

  lemma {:induction false} PreviousHlc(run: Run, at: seq<int>, i: nat, n: string) returns (p: int)
    requires i <= |run| == |at|
    ensures p == -1 ==> NodeHlc(run, at, i, n) == ZERO && forall k :: 0 <= k < i ==> run[k].node != n
    ensures p != -1 ==> 0 <= p < i && run[p].node == n && NodeHlc(run, at, i, n) == HlcStamp(run, at, p)
    ensures forall k :: p < k < i ==> run[k].node != n
  {
    if i == 0 {
      p := -1;
    } else if run[i - 1].node == n {
      p := i - 1;
    } else {
      p := PreviousHlc(run, at, i - 1, n);
    }
  }

  predicate AtOrBefore(a: Hybrid, b: Hybrid) {
    a == b || Precedes(a, b)
  }

  lemma {:induction false} NodeHlcGrows(run: Run, at: seq<int>, i: nat, j: nat)
    requires i < j <= |run| == |at|
    ensures AtOrBefore(HlcStamp(run, at, i), NodeHlc(run, at, j, run[i].node))
    decreases j
  {
    if i < j - 1 {
      NodeHlcGrows(run, at, i, j - 1);
      var k := j - 1;
      if run[k].node == run[i].node {
        var last := NodeHlc(run, at, k, run[k].node);
        StampsAdvance(last, if run[k].Deliver? && run[k].from < k then HlcStamp(run, at, run[k].from) else ZERO, at[k]);
      }
    }
  }

  lemma EdgeAdvances(run: Run, at: seq<int>, i: nat, j: nat)
    requires IsRun(run) && i < |run| && j < |run| == |at| && Edge(run, i, j)
    ensures Precedes(HlcStamp(run, at, i), HlcStamp(run, at, j))
  {
    var last := NodeHlc(run, at, j, run[j].node);
    StampsAdvance(last, if run[j].Deliver? && run[j].from < j then HlcStamp(run, at, run[j].from) else ZERO, at[j]);
    if run[i].node == run[j].node {
      NodeHlcGrows(run, at, i, j);
    }
  }

  /** Hybrid stamps respect causality whatever the physical clocks read. */
  lemma {:induction false} HybridIsCausal(run: Run, at: seq<int>, i: nat, j: nat)
    requires IsRun(run) && i < |run| && j < |run| == |at| && HappensBefore(run, i, j)
    ensures Precedes(HlcStamp(run, at, i), HlcStamp(run, at, j))
    decreases j
  {
    if Edge(run, i, j) {
      EdgeAdvances(run, at, i, j);
    } else {
      var k :| i < k < j && HappensBefore(run, i, k) && Edge(run, k, j);
      HybridIsCausal(run, at, i, k);
      EdgeAdvances(run, at, k, j);
      hide HlcStamp;
    }
  }

  /** The physical part is the newest reading in the event's past, its own included: never behind
      any of them, and always one of them, or the zero every clock starts from. */
  lemma {:induction false} PhysicalIsNewestReading(run: Run, at: seq<int>, j: nat)
    requires IsRun(run) && j < |run| == |at|
    ensures forall i :: 0 <= i <= j && Reaches(run, i, j) ==> at[i] <= HlcStamp(run, at, j).physical
    ensures HlcStamp(run, at, j).physical >= 0
    ensures HlcStamp(run, at, j).physical == 0 ||
            exists i :: 0 <= i <= j && Reaches(run, i, j) && at[i] == HlcStamp(run, at, j).physical
    decreases j
  {
    var s := HlcStamp(run, at, j);
    forall i | 0 <= i <= j && Reaches(run, i, j) ensures at[i] <= s.physical {
      OwnReading(run, at, i);
      if i != j {
        HybridIsCausal(run, at, i, j);
      }
    }
    var p := PreviousHlc(run, at, j, run[j].node);
    if p != -1 {
      PhysicalIsNewestReading(run, at, p);
    }
    if run[j].Deliver? {
      PhysicalIsNewestReading(run, at, run[j].from);
    }
    SourceOfPhysical(run, at, j, p);
    hide HlcStamp, HappensBefore;
    if s.physical != 0 && s.physical != at[j] {
      if p != -1 && s.physical == HlcStamp(run, at, p).physical {
        var i :| 0 <= i <= p && Reaches(run, i, p) && at[i] == s.physical;
        ReachesOn(run, i, p, j);
      } else {
        var from := run[j].from;
        var i :| 0 <= i <= from && Reaches(run, i, from) && at[i] == s.physical;
        ReachesOn(run, i, from, j);
      }
    }
  }

  lemma OwnReading(run: Run, at: seq<int>, i: nat)
    requires i < |run| == |at|
    ensures HlcStamp(run, at, i).physical >= at[i]
  {
  }

  /** A stamp's physical part comes from the own reading, the node's last stamp or the message. */
  lemma SourceOfPhysical(run: Run, at: seq<int>, j: nat, p: int)
    requires IsRun(run) && j < |run| == |at| && -1 <= p < j
    requires p == -1 ==> NodeHlc(run, at, j, run[j].node) == ZERO
    requires p != -1 ==> run[p].node == run[j].node && NodeHlc(run, at, j, run[j].node) == HlcStamp(run, at, p)
    ensures var x := HlcStamp(run, at, j).physical;
            || x == at[j] || (p == -1 && x == 0) || (p != -1 && x == HlcStamp(run, at, p).physical)
            || (run[j].Deliver? && x == HlcStamp(run, at, run[j].from).physical)
    ensures HlcStamp(run, at, j).physical >= NodeHlc(run, at, j, run[j].node).physical
    ensures p != -1 ==> Edge(run, p, j)
    ensures run[j].Deliver? ==> Edge(run, run[j].from, j)
  {
  }

  /** Every delivered stamp passed the drift check of the clock that received it. */
  ghost predicate DriftChecked(run: Run, at: seq<int>, drift: int)
    requires |run| == |at|
  {
    forall i :: 0 <= i < |run| && run[i].Deliver? && run[i].from < i ==>
      HlcStamp(run, at, run[i].from).physical - at[i] <= drift
  }

  /** Physical clocks do not run backwards. */
  ghost predicate Monotone(run: Run, at: seq<int>)
    requires |run| == |at|
  {
    forall i, j :: 0 <= i < j < |run| && run[i].node == run[j].node ==> at[i] <= at[j]
  }

  /** With the check on, a stamp is never more than the allowed drift ahead of the clock that made it. */
  lemma {:induction false} DriftIsBounded(run: Run, at: seq<int>, drift: nat, j: nat)
    requires IsRun(run) && j < |run| == |at| && DriftChecked(run, at, drift) && Monotone(run, at)
    requires forall i :: 0 <= i < |at| ==> at[i] >= 0
    ensures at[j] <= HlcStamp(run, at, j).physical <= at[j] + drift
    decreases j
  {
    var p := PreviousHlc(run, at, j, run[j].node);
    if p != -1 {
      DriftIsBounded(run, at, drift, p);
    }
    SourceOfPhysical(run, at, j, p);
    OwnReading(run, at, j);
  }
}
