/** Transfers between accounts, each taking its two locks in the order of the account ids. */
module LockOrder {
  import opened StringOrder

  type Thread = nat

  /** A transfer in progress: which locks it holds. */
  datatype Phase = Outside
                 | Wants(source: string, target: string, amount: int)
                 | HoldsFirst(source: string, target: string, amount: int)
                 | HoldsBoth(source: string, target: string, amount: int)

  /** `owners` maps a locked account to the thread that holds its lock. */
  datatype State = State(balances: map<string, int>, owners: map<string, Thread>, phases: map<Thread, Phase>)

  datatype Event = Begin(t: Thread, source: string, target: string, amount: int) | Lock(t: Thread) | Finish(t: Thread)

  function PhaseOf(s: State, t: Thread): Phase {
    if t in s.phases then s.phases[t] else Outside
  }

  /** `sorted((source, target), key=id)`. */
  function First(p: Phase): string
    requires !p.Outside?
  {
    if StrLess(p.target, p.source) then p.target else p.source
  }

  function Second(p: Phase): string
    requires !p.Outside?
  {
    if StrLess(p.target, p.source) then p.source else p.target
  }

  /** The call is refused for an amount that is not positive or two times the same account. */
  predicate Accepted(s: State, source: string, target: string, amount: int) {
    amount > 0 && source != target && source in s.balances && target in s.balances
  }

  predicate Enabled(s: State, e: Event) {
    match e
    case Begin(t, source, target, amount) => PhaseOf(s, t).Outside? && Accepted(s, source, target, amount)
    case Lock(t) =>
      var p := PhaseOf(s, t);
      (p.Wants? && First(p) !in s.owners) || (p.HoldsFirst? && Second(p) !in s.owners)
    case Finish(t) => PhaseOf(s, t).HoldsBoth?
  }

  /** Inside both locks: refuse an overdraft, else move the amount; then release both. */
  function Apply(s: State, e: Event): State
    requires Enabled(s, e)
  {
    match e
    case Begin(t, source, target, amount) => s.(phases := s.phases[t := Wants(source, target, amount)])
    case Lock(t) =>
      var p := PhaseOf(s, t);
      if p.Wants? then s.(owners := s.owners[First(p) := t], phases :=
                          s.phases[t := HoldsFirst(p.source, p.target, p.amount)])
      else s.(owners := s.owners[Second(p) := t], phases := s.phases[t := HoldsBoth(p.source, p.target, p.amount)])
    case Finish(t) =>
      var p := PhaseOf(s, t);
      s.(owners := s.owners - {p.source, p.target}, phases := s.phases[t := Outside],
         balances := Moved(s.balances, p.source, p.target, p.amount))
  }

  function Moved(balances: map<string, int>, source: string, target: string, amount: int): map<string, int> {
    if source !in balances || target !in balances || balances[source] < amount then balances
    else balances[source := balances[source] - amount][target := balances[target] + amount]
  }

  // ---------------------------------------------------------------- runs

  datatype Exec = Exec(states: seq<State>, events: seq<Event>)

  ghost predicate IsRun(r: Exec, initial: map<string, int>) {
    && |r.states| == |r.events| + 1 && r.states[0] == State(initial, map[], map[])
    && forall i {:trigger r.events[i]} :: 0 <= i < |r.events| ==>
         Enabled(r.states[i], r.events[i]) && r.states[i + 1] == Apply(r.states[i], r.events[i])
  }

  ghost predicate Holds(s: State, t: Thread, account: string) {
    var p := PhaseOf(s, t);
    (p.HoldsFirst? && account == First(p)) || (p.HoldsBoth? && (account == First(p) || account == Second(p)))
  }

  /** Locks are held exactly by the transfers that took them, on accounts that exist, in order. */
  ghost predicate Good(s: State) {
    && (forall a :: a in s.owners ==> Holds(s, s.owners[a], a))
    && (forall t, a :: Holds(s, t, a) ==> a in s.owners && s.owners[a] == t)
    && (forall t :: Proper(s.balances, PhaseOf(s, t)))
  }

  ghost predicate Proper(balances: map<string, int>, p: Phase) {
    !p.Outside? ==>
          p.source != p.target && p.amount > 0 && p.source in balances && p.target in balances &&
              StrLess(First(p), Second(p))
  }

  lemma Ordered(p: Phase)
    requires !p.Outside? && p.source != p.target
    ensures StrLess(First(p), Second(p)) && {First(p), Second(p)} == {p.source, p.target}
  {
    Total(p.source, p.target);
  }

  lemma GoodStep(s: State, e: Event)
    requires Good(s) && Enabled(s, e)
    ensures Good(Apply(s, e))
  {
    match e
    case Begin(t, source, target, amount) => BeginStep(s, e);
    case Lock(t) => LockStep(s, t);
    case Finish(t) => FinishStep(s, t);
  }

  lemma BeginStep(s: State, e: Event)
    requires Good(s) && Enabled(s, e) && e.Begin?
    ensures Good(Apply(s, e))
  {
    var s' := Apply(s, e);
    Ordered(PhaseOf(s', e.t));
    hide StrLess, First, Second;
    forall u, a | Holds(s', u, a) ensures Holds(s, u, a) {
    }
    forall a | a in s'.owners ensures Holds(s', s'.owners[a], a) {
      assert Holds(s, s.owners[a], a);
    }
    forall u ensures Proper(s'.balances, PhaseOf(s', u)) {
      assert Proper(s.balances, PhaseOf(s, u));
    }
  }

  lemma LockStep(s: State, t: Thread)
    requires Good(s) && Enabled(s, Lock(t))
    ensures Good(Apply(s, Lock(t)))
  {
    hide StrLess;
    var s' := Apply(s, Lock(t));
    var p, p' := PhaseOf(s, t), PhaseOf(s', t);
    assert First(p) == First(p') && Second(p) == Second(p');
    forall u ensures Proper(s'.balances, PhaseOf(s', u)) {
      assert Proper(s.balances, PhaseOf(s, u));
    }
    forall u, a | Holds(s', u, a) ensures a in s'.owners && s'.owners[a] == u {
      if u != t || (p.HoldsFirst? && a == First(p)) {
        assert Holds(s, u, a);
      }
    }
    forall a | a in s'.owners ensures Holds(s', s'.owners[a], a) {
      if a in s.owners {
        assert Holds(s, s.owners[a], a);
      }
    }
  }

  lemma FinishStep(s: State, t: Thread)
    requires Good(s) && Enabled(s, Finish(t))
    ensures Good(Apply(s, Finish(t)))
  {
    FinishProper(s, t);
    FinishHolds(s, t);
    hide Holds, Proper, Apply;
  }

  lemma FinishProper(s: State, t: Thread)
    requires Good(s) && Enabled(s, Finish(t))
    ensures forall u :: Proper(Apply(s, Finish(t)).balances, PhaseOf(Apply(s, Finish(t)), u))
  {
    var s' := Apply(s, Finish(t));
    var p := PhaseOf(s, t);
    assert Proper(s.balances, p);
    MovedKeeps(s.balances, p.source, p.target, p.amount);
    hide StrLess, First, Second, Moved, Sum, Holds;
    forall u ensures Proper(s'.balances, PhaseOf(s', u)) {
      assert Proper(s.balances, PhaseOf(s, u));
    }
  }

  /** The finished thread's two locks are free again and nobody else's change hands. */
  lemma FinishHolds(s: State, t: Thread)
    requires Good(s) && Enabled(s, Finish(t))
    ensures var s' := Apply(s, Finish(t));
            && (forall a :: a in s'.owners ==> Holds(s', s'.owners[a], a))
            && (forall u, a :: Holds(s', u, a) ==> a in s'.owners && s'.owners[a] == u)
  {
    var s' := Apply(s, Finish(t));
    var p := PhaseOf(s, t);
    hide StrLess, First, Second, Moved, Sum, Proper;
    assert Holds(s, t, First(p)) && Holds(s, t, Second(p));
    forall u, a | Holds(s', u, a) ensures a in s'.owners && s'.owners[a] == u {
      assert u != t && Holds(s, u, a);
      assert a in s.owners && s.owners[a] == u;
      assert a != First(p) && a != Second(p);
      assert a !in {First(p), Second(p)};
    }
    forall a | a in s'.owners ensures Holds(s', s'.owners[a], a) {
      assert Holds(s, s.owners[a], a) && a !in {First(p), Second(p)};
    }
  }

  // ---------------------------------------------------------------- no deadlock

  lemma {:induction false} GreatestExists(names: set<string>)
    requires names != {}
    ensures exists g :: g in names && forall x :: x in names && x != g ==> StrLess(x, g)
    decreases names
  {
    hide StrLess;
    var some :| some in names;
    if names == {some} {
      assert forall x :: x in names && x != some ==> StrLess(x, some);
    } else {
      GreatestExists(names - {some});
      var g :| g in names - {some} && forall x :: x in names - {some} && x != g ==> StrLess(x, g);
      Total(some, g);
      if StrLess(g, some) {
        forall x | x in names && x != some ensures StrLess(x, some) {
          if x != g {
            Transitive(x, g, some);
          }
        }
      } else {
        assert forall x :: x in names && x != g ==> StrLess(x, g);
      }
    }
  }

  /** Whatever the schedule, while a transfer is under way some transfer can take its next step:
      the one that holds the greatest lock is never waiting for a lock that is held. */
  lemma NeverDeadlocked(s: State)
    requires Good(s) && exists t :: !PhaseOf(s, t).Outside?
    ensures exists e: Event :: !e.Begin? && Enabled(s, e)
  {
    hide StrLess;
    if s.owners == map[] {
      var t :| !PhaseOf(s, t).Outside?;
      var p := PhaseOf(s, t);
      assert p.HoldsFirst? || p.HoldsBoth? ==> Holds(s, t, First(p));
      assert Enabled(s, Lock(t));
    } else {
      GreatestExists(s.owners.Keys);
      var g :| g in s.owners.Keys && forall x :: x in s.owners.Keys && x != g ==> StrLess(x, g);
      var t := s.owners[g];
      assert Holds(s, t, g);
      var p := PhaseOf(s, t);
      if p.HoldsBoth? {
        assert Enabled(s, Finish(t));
      } else {
        assert Proper(s.balances, p);
        NotAbove(s, g, Second(p));
        assert Enabled(s, Lock(t));
      }
    }
  }

  lemma NotAbove(s: State, g: string, a: string)
    requires StrLess(g, a) && forall x :: x in s.owners.Keys && x != g ==> StrLess(x, g)
    ensures a !in s.owners
  {
    hide StrLess;
    Irreflexive(g);
    if a in s.owners {
      Transitive(g, a, g);
    }
  }

  // ---------------------------------------------------------------- money

  ghost function Sum(balances: map<string, int>): int
    decreases balances.Keys
  {
    if balances == map[] then 0 else
      var a :| a in balances;
      balances[a] + Sum(balances - {a})
  }

  /** The sum does not depend on the order of addition. */
  lemma {:induction false} SumWithout(balances: map<string, int>, a: string)
    requires a in balances
    ensures Sum(balances) == balances[a] + Sum(balances - {a})
    decreases balances.Keys
  {
    var b :| b in balances && Sum(balances) == balances[b] + Sum(balances - {b});
    if b != a {
      SumWithout(balances - {b}, a);
      SumWithout(balances - {a}, b);
      assert balances - {b} - {a} == balances - {a} - {b};
    }
  }

  lemma SumUpdate(balances: map<string, int>, a: string, x: int)
    requires a in balances
    ensures Sum(balances[a := x]) == Sum(balances) - balances[a] + x
  {
    SumWithout(balances, a);
    SumWithout(balances[a := x], a);
    assert balances[a := x] - {a} == balances - {a};
  }

  ghost predicate NoOverdraft(balances: map<string, int>) {
    forall a :: a in balances ==> balances[a] >= 0
  }

  /** A transfer moves money and neither makes any nor overdraws anyone. */
  lemma MovedKeeps(balances: map<string, int>, source: string, target: string, amount: int)
    requires amount > 0 && source != target
    ensures var after := Moved(balances, source, target, amount);
            && after.Keys == balances.Keys && Sum(after) == Sum(balances) &&
               (NoOverdraft(balances) ==> NoOverdraft(after))
  {
    if source in balances && target in balances && balances[source] >= amount {
      SumUpdate(balances, source, balances[source] - amount);
      SumUpdate(balances[source := balances[source] - amount], target, balances[target] + amount);
    }
  }

  /** Every state of every run: locks in order, nothing stuck, the total unchanged, no overdraft. */
  lemma {:induction false} RunsAreSafe(r: Exec, initial: map<string, int>, i: nat)
    requires IsRun(r, initial) && i < |r.states|
    ensures Good(r.states[i]) && r.states[i].balances.Keys == initial.Keys && Sum(r.states[i].balances) == Sum(initial)
    ensures NoOverdraft(initial) ==> NoOverdraft(r.states[i].balances)
    ensures (exists t :: !PhaseOf(r.states[i], t).Outside?) ==> exists e: Event :: !e.Begin? && Enabled(r.states[i], e)
  {
    if i > 0 {
      RunsAreSafe(r, initial, i - 1);
      var s, e := r.states[i - 1], r.events[i - 1];
      GoodStep(s, e);
      if e.Finish? {
        var p := PhaseOf(s, e.t);
        assert Proper(s.balances, p);
        MovedKeeps(s.balances, p.source, p.target, p.amount);
      }
    }
    hide Good, Sum, StrLess, Enabled, NoOverdraft, Apply;
    if exists t :: !PhaseOf(r.states[i], t).Outside? {
      NeverDeadlocked(r.states[i]);
    }
  }
}
