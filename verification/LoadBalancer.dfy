/** Smooth weighted round robin: every backend gets exactly its share of every full period. */
module LoadBalancer {

  datatype Backend = Backend(name: string, weight: nat)

  function Sum(s: seq<int>): int {
    if s == [] then 0 else Sum(s[..|s| - 1]) + s[|s| - 1]
  }

  /** `max(..., key=score)`: the first of the largest. */
  function Argmax(s: seq<int>): (b: nat)
    requires s != []
    ensures b < |s| && (forall i :: 0 <= i < |s| ==> s[i] <= s[b]) && (forall i :: 0 <= i < b ==> s[i] < s[b])
  {
    if |s| == 1 then 0 else
      var b := Argmax(s[..|s| - 1]);
      if s[|s| - 1] > s[b] then |s| - 1 else b
  }

  /** Every backend gains its weight. */
  function Bumped(w: seq<int>, s: seq<int>): (r: seq<int>)
    requires |w| == |s|
    ensures |r| == |s|
  {
    seq(|s|, i requires 0 <= i < |s| => s[i] + w[i])
  }

  /** The highest score wins and pays the total. */
  function Step(w: seq<int>, s: seq<int>): (r: seq<int>)
    requires |w| == |s| > 0
    ensures |r| == |s|
  {
    var up := Bumped(w, s);
    up[Argmax(up) := up[Argmax(up)] - Sum(w)]
  }

  function Pick(w: seq<int>, s: seq<int>): (b: nat)
    requires |w| == |s| > 0
    ensures b < |w|
  {
    Argmax(Bumped(w, s))
  }

  function Zeros(n: nat): seq<int> {
    seq(n, _ => 0)
  }

  /** The scores after `t` picks from fresh scores. */
  function Scores(w: seq<int>, t: nat): (s: seq<int>)
    requires w != []
    ensures |s| == |w|
  {
    if t == 0 then Zeros(|w|) else Step(w, Scores(w, t - 1))
  }

  /** How often backend `i` was picked in the first `t` picks. */
  function Count(w: seq<int>, t: nat, i: nat): nat
    requires w != []
  {
    if t == 0 then 0 else Count(w, t - 1, i) + if Pick(w, Scores(w, t - 1)) == i then 1 else 0
  }

  ghost predicate Positive(w: seq<int>) {
    w != [] && forall i :: 0 <= i < |w| ==> w[i] > 0
  }

  lemma {:induction false} SumOfBumped(w: seq<int>, s: seq<int>)
    requires |w| == |s|
    ensures Sum(Bumped(w, s)) == Sum(w) + Sum(s)
  {
    if s != [] {
      var n := |s| - 1;
      assert Bumped(w, s)[..n] == Bumped(w[..n], s[..n]);
      SumOfBumped(w[..n], s[..n]);
    }
  }

  lemma {:induction false} SumUpdate(s: seq<int>, i: nat, x: int)
    requires i < |s|
    ensures Sum(s[i := x]) == Sum(s) - s[i] + x
  {
    var n := |s| - 1;
    if i == n {
      assert s[i := x][..n] == s[..n];
    } else {
      assert s[i := x][..n] == s[..n][i := x];
      SumUpdate(s[..n], i, x);
    }
  }

  lemma {:induction false} SumOfZeros(n: nat)
    ensures Sum(Zeros(n)) == 0
  {
    if n > 0 {
      assert Zeros(n)[..n - 1] == Zeros(n - 1);
      SumOfZeros(n - 1);
    }
  }

  /** If no element is positive, neither is the sum. */
  lemma {:induction false} SumBelow(s: seq<int>)
    requires forall i :: 0 <= i < |s| ==> s[i] <= 0
    ensures Sum(s) <= 0
  {
    if s != [] {
      SumBelow(s[..|s| - 1]);
    }
  }

  lemma {:induction false} PositiveSum(w: seq<int>)
    requires Positive(w)
    ensures Sum(w) > 0
  {
    if |w| > 1 {
      PositiveSum(w[..|w| - 1]);
    } else {
      assert w[..0] == [];
    }
  }

  /** The scores always sum to zero and never fall to minus the total. */
  ghost predicate Balanced(w: seq<int>, s: seq<int>) {
    |s| == |w| && Sum(s) == 0 && forall i :: 0 <= i < |s| ==> s[i] > -Sum(w)
  }

  /** The invariant of every pick. */
  lemma StepKeepsBalance(w: seq<int>, s: seq<int>)
    requires Positive(w) && Balanced(w, s)
    ensures Balanced(w, Step(w, s))
  {
    PositiveSum(w);
    SumOfBumped(w, s);
    var up := Bumped(w, s);
    var b := Argmax(up);
    SumUpdate(up, b, up[b] - Sum(w));
    if up[b] <= 0 {
      SumBelow(up);
    }
    hide Sum;
  }

  lemma {:induction false} RunsAreBalanced(w: seq<int>, t: nat)
    requires Positive(w)
    ensures Balanced(w, Scores(w, t))
  {
    if t == 0 {
      SumOfZeros(|w|);
      PositiveSum(w);
    } else {
      RunsAreBalanced(w, t - 1);
      StepKeepsBalance(w, Scores(w, t - 1));
    }
  }

  /** A score is what the backend was owed less what it was given. */
  lemma {:induction false} ScoreIsDebt(w: seq<int>, t: nat, i: nat)
    requires w != [] && i < |w|
    ensures Scores(w, t)[i] == t * w[i] - Sum(w) * Count(w, t, i)
  {
    if t > 0 {
      ScoreIsDebt(w, t - 1, i);
      var before := Scores(w, t - 1);
      StepAt(w, before, i);
      hide Sum, Step, Pick;
      DebtStep(Sum(w), w[i], t, Count(w, t - 1, i), Pick(w, before) == i, before[i], Scores(w, t)[i]);
    }
  }

  lemma DebtStep(total: int, weight: int, t: int, count: int, won: bool, before: int, after: int)
    requires before == (t - 1) * weight - total * count && after == before + weight - if won then total else 0
    ensures after == t * weight - total * (count + if won then 1 else 0)
  {
    Distribute(weight, t, 1);
    Distribute(total, count, 1);
  }

  lemma StepAt(w: seq<int>, s: seq<int>, i: nat)
    requires |w| == |s| > 0 && i < |w|
    ensures Step(w, s)[i] == s[i] + w[i] - if Pick(w, s) == i then Sum(w) else 0
  {
  }

  lemma Distribute(x: int, a: int, b: int)
    ensures x * (a - b) == x * a - x * b && x * 1 == x && x * a == a * x
    ensures x * (a + b) == x * a + x * b
  {
  }

  /** Non-negative numbers that sum to zero are all zero. */
  lemma {:induction false} AllZero(s: seq<int>)
    requires Sum(s) == 0 && forall i :: 0 <= i < |s| ==> s[i] >= 0
    ensures s == Zeros(|s|)
  {
    if s != [] {
      var n := |s| - 1;
      NonNegativeSum(s[..n]);
      AllZero(s[..n]);
      assert s == s[..n] + [s[n]];
    }
  }

  lemma {:induction false} NonNegativeSum(s: seq<int>)
    requires forall i :: 0 <= i < |s| ==> s[i] >= 0
    ensures Sum(s) >= 0
  {
    if s != [] {
      NonNegativeSum(s[..|s| - 1]);
    }
  }

  lemma MultipleAboveMinus(total: int, k: int)
    requires total > 0 && total * k > -total
    ensures k >= 0 && total * k >= 0
  {
    if k < 0 {
      NegativeMultiple(total, k);
    } else {
      NonNegativeProduct(total, k);
    }
  }

  lemma {:induction false} NegativeMultiple(total: int, k: int)
    requires total > 0 && k < 0
    ensures total * k <= -total
    decreases -k
  {
    if k < -1 {
      NegativeMultiple(total, k + 1);
      Distribute(total, k + 1, 1);
    }
  }

  lemma NonNegativeProduct(a: int, b: int)
    requires a >= 0 && b >= 0
    ensures a * b >= 0
  {
  }

  lemma SameProduct(total: int, a: int, b: int)
    requires total > 0 && total * a == total * b
    ensures a == b
  {
    assert total * (a - b) == 0;
  }

  /** After as many picks as the weights sum to, every backend was picked exactly its weight many
      times and every score is back at zero. */
  lemma FullPeriod(w: seq<int>)
    requires Positive(w)
    ensures Sum(w) > 0 && Scores(w, Sum(w)) == Zeros(|w|)
    ensures forall i :: 0 <= i < |w| ==> Count(w, Sum(w), i) == w[i]
  {
    PositiveSum(w);
    var total := Sum(w);
    var s := Scores(w, total);
    RunsAreBalanced(w, total);
    hide Sum, Scores, Count;
    forall i | 0 <= i < |w| ensures s[i] >= 0 {
      ScoreIsDebt(w, total, i);
      Owed(total, w[i], Count(w, total, i), s[i]);
    }
    AllZero(s);
    forall i | 0 <= i < |w| ensures Count(w, total, i) == w[i] {
      ScoreIsDebt(w, total, i);
      SameProduct(total, w[i], Count(w, total, i));
    }
  }

  lemma Owed(total: int, weight: int, count: int, score: int)
    requires total > 0 && score == total * weight - total * count && score > -total
    ensures score >= 0
  {
    Distribute(total, weight, count);
    MultipleAboveMinus(total, weight - count);
  }

  /** The schedule repeats: any stretch of that many consecutive picks is exactly fair. */
  lemma EveryWindowIsFair(w: seq<int>, t: nat, i: nat)
    requires Positive(w) && i < |w|
    ensures Sum(w) > 0 && Scores(w, t + Sum(w)) == Scores(w, t)
    ensures Count(w, t + Sum(w), i) == Count(w, t, i) + w[i]
  {
    FullPeriod(w);
    PeriodSlides(w, Sum(w), t, i);
  }

  /** Once the scores have come back to where they began, they keep doing so. */
  lemma {:induction false} PeriodSlides(w: seq<int>, total: nat, t: nat, i: nat)
    requires w != [] && Scores(w, total) == Zeros(|w|)
    ensures Scores(w, t + total) == Scores(w, t)
    ensures Count(w, t + total, i) == Count(w, t, i) + Count(w, total, i)
  {
    hide Step, Pick, Zeros;
    if t == 0 {
      NothingPicked(w, i);
    } else {
      PeriodSlides(w, total, t - 1, i);
      hide Scores, Count;
      SlideWindow(w, t - 1, t, total, i);
    }
  }

  /** A window one pick later gains at its end what it loses at its start. */
  lemma SlideWindow(w: seq<int>, t: nat, next: nat, total: nat, i: nat)
    requires w != [] && next == t + 1 && Scores(w, t + total) == Scores(w, t)
    ensures Scores(w, next + total) == Scores(w, next)
    ensures Count(w, next + total, i) - Count(w, next, i) == Count(w, t + total, i) - Count(w, t, i)
  {
    hide Step, Pick, Scores, Count;
    NextPick(w, t, next, i);
    NextPick(w, t + total, next + total, i);
  }

  lemma NothingPicked(w: seq<int>, i: nat)
    requires w != []
    ensures Scores(w, 0) == Zeros(|w|) && Count(w, 0, i) == 0
  {
  }

  lemma NextPick(w: seq<int>, t: nat, next: nat, i: nat)
    requires w != [] && next == t + 1
    ensures Scores(w, next) == Step(w, Scores(w, t))
    ensures Count(w, next, i) == Count(w, t, i) + if Pick(w, Scores(w, t)) == i then 1 else 0
  {
  }

  /** At no time is a backend a whole period ahead of its share. */
  lemma NeverFarAhead(w: seq<int>, t: nat, i: nat)
    requires Positive(w) && i < |w|
    ensures Sum(w) * Count(w, t, i) < t * w[i] + Sum(w)
  {
    RunsAreBalanced(w, t);
    ScoreIsDebt(w, t, i);
  }

  // ---------------------------------------------------------------- the class

  ghost predicate DistinctNames(backends: seq<Backend>) {
    forall i, j :: 0 <= i < j < |backends| ==> backends[i].name != backends[j].name
  }

  function Weights(backends: seq<Backend>): (w: seq<int>)
    ensures |w| == |backends|
  {
    seq(|backends|, i requires 0 <= i < |backends| => backends[i].weight)
  }

  function ScoreOf(score: map<string, int>, name: string): int {
    if name in score then score[name] else 0
  }

  /** The pool's scores, in pool order; a backend without one counts as zero. */
  function ScoresOf(score: map<string, int>, backends: seq<Backend>): (s: seq<int>)
    ensures |s| == |backends|
  {
    seq(|backends|, i requires 0 <= i < |backends| => ScoreOf(score, backends[i].name))
  }

  class WeightedRoundRobin {
    var score: map<string, int>

    constructor ()
      ensures score == map[]
    {
      score := map[];
    }

    /** One pick from a non-empty pool; scores of other backends are kept. */
    method Choose(backends: seq<Backend>) returns (best: nat)
      requires backends != [] && DistinctNames(backends)
      modifies this
      ensures best == Pick(Weights(backends), ScoresOf(old(score), backends))
      ensures ScoresOf(score, backends) == Step(Weights(backends), ScoresOf(old(score), backends))
      ensures forall n :: (forall i :: 0 <= i < |backends| ==> backends[i].name != n) ==>
                ScoreOf(score, n) == ScoreOf(old(score), n)
    {
      ghost var w, s := Weights(backends), ScoresOf(score, backends);
      ghost var up := Bumped(w, s);
      var total := TotalWeight(backends);
      hide Sum, Argmax;
      Bump(backends);
      best := Best(backends, up);
      Paid(score, backends, w, s, best, total);
      score := score[backends[best].name := score[backends[best].name] - total];
    }

    /** `max(pool, key=score)`: the first backend with the highest score. */
    method Best(backends: seq<Backend>, ghost up: seq<int>) returns (best: nat)
      requires backends != [] && |up| == |backends|
      requires forall i :: 0 <= i < |backends| ==> backends[i].name in score && score[backends[i].name] == up[i]
      ensures best == Argmax(up)
    {
      hide *;
      best := 0;
      FirstIsBest(up);
      for i := 1 to |backends|
        invariant best < i && best == Argmax(up[..i])
      {
        NextBest(up, i);
        if score[backends[i].name] > score[backends[best].name] {
          best := i;
        }
      }
      assert up[..|backends|] == up;
    }

    /** `score += weight` for every backend of the pool. */
    method Bump(backends: seq<Backend>)
      requires DistinctNames(backends)
      modifies this
      ensures ScoresOf(score, backends) == Bumped(Weights(backends), ScoresOf(old(score), backends))
      ensures forall i :: 0 <= i < |backends| ==>
                backends[i].name in score && score[backends[i].name] ==
                    Bumped(Weights(backends), ScoresOf(old(score), backends))[i]
      ensures forall n :: (forall i :: 0 <= i < |backends| ==> backends[i].name != n) ==>
                ScoreOf(score, n) == ScoreOf(old(score), n)
    {
      ghost var s := ScoresOf(score, backends);
      ghost var up := Bumped(Weights(backends), s);
      for i := 0 to |backends|
        invariant forall j :: 0 <= j < i ==> backends[j].name in score && score[backends[j].name] == up[j]
        invariant forall j :: i <= j < |backends| ==> ScoreOf(score, backends[j].name) == s[j]
        invariant forall n :: (forall j :: 0 <= j < |backends| ==> backends[j].name != n) ==>
                    ScoreOf(score, n) == ScoreOf(old(score), n)
      {
        var b := backends[i];
        score := score[b.name := ScoreOf(score, b.name) + b.weight];
      }
    }
  }

  lemma Paid(score: map<string, int>, backends: seq<Backend>, w: seq<int>, s: seq<int>, best: nat, total: int)
    requires |w| == |s| == |backends| > 0 && DistinctNames(backends) && total == Sum(w)
    requires ScoresOf(score, backends) == Bumped(w, s) && best == Pick(w, s) && backends[best].name in score
    ensures ScoresOf(score[backends[best].name := score[backends[best].name] - total], backends) == Step(w, s)
  {
    hide Sum, Argmax;
    var up := Bumped(w, s);
    assert up[best] == ScoreOf(score, backends[best].name);
  }

  lemma FirstIsBest(up: seq<int>)
    requires up != []
    ensures Argmax(up[..1]) == 0
  {
  }

  lemma NextBest(up: seq<int>, i: nat)
    requires 0 < i < |up|
    ensures Argmax(up[..i + 1]) == if up[i] > up[Argmax(up[..i])] then i else Argmax(up[..i])
  {
    assert up[..i + 1][..i] == up[..i];
  }

  method TotalWeight(backends: seq<Backend>) returns (total: nat)
    ensures total == Sum(Weights(backends))
  {
    total := 0;
    ghost var w := Weights(backends);
    for i := 0 to |backends|
      invariant total == Sum(w[..i])
    {
      assert w[..i + 1][..i] == w[..i];
      total := total + backends[i].weight;
    }
    assert w[..|backends|] == w;
  }

  /** `n` picks from a fixed pool and fresh scores; `counts` says how often each backend came up. */
  method Serve(backends: seq<Backend>, n: nat) returns (picks: seq<nat>, counts: seq<nat>)
    requires backends != [] && DistinctNames(backends)
    ensures |picks| == n && |counts| == |backends|
    ensures forall i :: 0 <= i < |backends| ==> counts[i] == Count(Weights(backends), n, i)
    ensures forall t :: 0 <= t < n ==> picks[t] == Pick(Weights(backends), Scores(Weights(backends), t))
  {
    hide Pick, Argmax, Sum, Bumped;
    var lb := new WeightedRoundRobin();
    ghost var w := Weights(backends);
    picks, counts := [], seq(|backends|, _ => 0);
    assert ScoresOf(lb.score, backends) == Zeros(|w|);
    for t := 0 to n
      invariant fresh(lb) && |picks| == t && |counts| == |backends|
      invariant ScoresOf(lb.score, backends) == Scores(w, t)
      invariant forall i :: 0 <= i < |backends| ==> counts[i] == Count(w, t, i)
      invariant forall u :: 0 <= u < t ==> picks[u] == Pick(w, Scores(w, u))
    {
      var best := lb.Choose(backends);
      counts := counts[best := counts[best] + 1];
      picks := picks + [best];
    }
  }
}
