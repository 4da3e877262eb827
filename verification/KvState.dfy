/** The key-value cluster's state as a value, and what each step does to it. */
module KvState {
  import opened Versions
  import opened Wrappers

  datatype NodeState = NodeState(up: bool, data: map<string, set<Version>>, hints: map<(string, string), set<Version>>)

  type Nodes = map<string, NodeState>

  function Siblings(s: NodeState, key: string): set<Version> {
    if key in s.data then s.data[key] else {}
  }

  function HintsFor(s: NodeState, home: string, key: string): set<Version> {
    if (home, key) in s.hints then s.hints[(home, key)] else {}
  }

  /** Merge versions into a key's siblings. */
  function StoreIn(s: NodeState, key: string, versions: set<Version>): NodeState {
    s.(data := s.data[key := Reconcile(Siblings(s, key) + versions)])
  }

  function HintIn(s: NodeState, home: string, key: string, version: Version): NodeState {
    s.(hints := s.hints[(home, key) := Reconcile(HintsFor(s, home, key) + {version})])
  }

  /** A home replica, and the node that takes the write for it: itself or a stand-in. */
  datatype Target = Target(home: string, holder: string)

  function WriteTo(s: NodeState, target: Target, key: string, version: Version): NodeState {
    var stored := StoreIn(s, key, {version});
    if target.holder == target.home then stored else HintIn(stored, target.home, key, version)
  }

  /** One write, replica by replica. */
  ghost function WriteAll(nodes: Nodes, targets: seq<Target>, key: string, version: Version): (r: Nodes)
    ensures r.Keys == nodes.Keys
  {
    if targets == [] then nodes else
      var k := |targets| - 1;
      var before := WriteAll(nodes, targets[..k], key, version);
      var holder := targets[k].holder;
      if holder in before then before[holder := WriteTo(before[holder], targets[k], key, version)] else before
  }

  // ---------------------------------------------------------------- who takes a write

  /** Each home replica that is up, and for one that is down the next spare, while they last. */
  function TargetsOf(nodes: Nodes, homes: seq<string>, spares: seq<string>, sloppy: bool): (ts: seq<Target>)
    requires forall h :: h in homes ==> h in nodes
    ensures |ts| <= |homes|
  {
    if homes == [] then []
    else if nodes[homes[0]].up then [Target(homes[0], homes[0])] + TargetsOf(nodes, homes[1..], spares, sloppy)
    else if sloppy && spares != [] then [Target(homes[0], spares[0])] +
            TargetsOf(nodes, homes[1..], spares[1..], sloppy)
    else TargetsOf(nodes, homes[1..], spares, sloppy)
  }

  /** One turn of the loop over the homes, with `used` spares taken so far. */
  lemma NextTarget(nodes: Nodes, homes: seq<string>, spares: seq<string>, sloppy: bool, i: nat, used: nat)
    requires forall h :: h in homes ==> h in nodes
    requires i < |homes| && used <= |spares|
    ensures TargetsOf(nodes, homes[i..], spares[used..], sloppy) ==
            if nodes[homes[i]].up then
              [Target(homes[i], homes[i])] + TargetsOf(nodes, homes[i + 1..], spares[used..], sloppy)
            else if sloppy && used < |spares| then
              [Target(homes[i], spares[used])] + TargetsOf(nodes, homes[i + 1..], spares[used + 1..], sloppy)
            else
              TargetsOf(nodes, homes[i + 1..], spares[used..], sloppy)
  {
    assert homes[i..][1..] == homes[i + 1..];
    if used < |spares| {
      assert spares[used..][1..] == spares[used + 1..];
    }
  }

  lemma SplitApart(full: seq<string>, n: nat)
    requires Apart(full) && n <= |full|
    ensures Apart(full[..n]) && Apart(full[n..])
    ensures forall a :: a in full <==> a in full[..n] || a in full[n..]
    ensures forall a :: a in full[n..] ==> a !in full[..n]
  {
    assert full == full[..n] + full[n..];
    assert forall i, j :: 0 <= i < n <= j < |full| ==> full[i] != full[j];
  }

  ghost predicate Apart(names: seq<string>) {
    forall i, j :: 0 <= i < j < |names| ==> names[i] != names[j]
  }

  /** Targets stand for distinct homes, go to distinct live holders, and every live home is its own. */
  lemma {:induction false} TargetsAreSound(nodes: Nodes, homes: seq<string>, spares: seq<string>, sloppy: bool)
    requires forall h :: h in homes ==> h in nodes
    requires forall s :: s in spares ==> s in nodes && nodes[s].up && s !in homes
    requires Apart(homes) && Apart(spares)
    ensures var ts := TargetsOf(nodes, homes, spares, sloppy);
            && (forall t :: t in ts ==> t.home in homes && t.holder in nodes && nodes[t.holder].up)
            && (forall t :: t in ts ==> if nodes[t.home].up then t.holder == t.home else t.holder in spares && sloppy)
            && (forall i, j :: 0 <= i < j < |ts| ==> ts[i].holder != ts[j].holder && ts[i].home != ts[j].home)
            && (forall h :: h in homes && nodes[h].up ==> Target(h, h) in ts)
  {
    if homes != [] {
      var h, rest := homes[0], homes[1..];
      assert homes == [h] + rest && h !in rest;
      if nodes[h].up {
        TargetsAreSound(nodes, rest, spares, sloppy);
        MoreTargets(Target(h, h), TargetsOf(nodes, rest, spares, sloppy), rest);
      } else if sloppy && spares != [] {
        assert spares == [spares[0]] + spares[1..] && spares[0] !in spares[1..];
        TargetsAreSound(nodes, rest, spares[1..], sloppy);
        MoreTargets(Target(h, spares[0]), TargetsOf(nodes, rest, spares[1..], sloppy), rest);
      } else {
        TargetsAreSound(nodes, rest, spares, sloppy);
      }
    }
  }

  lemma MoreTargets(t: Target, ts: seq<Target>, rest: seq<string>)
    ensures forall x :: x in [t] + ts <==> x == t || x in ts
    ensures t.home !in rest && (forall x :: x in ts ==> x.home in rest && x.holder != t.holder)
            && (forall i, j :: 0 <= i < j < |ts| ==> ts[i].holder != ts[j].holder && ts[i].home != ts[j].home) ==>
              var all := [t] + ts;
              forall i, j :: 0 <= i < j < |all| ==> all[i].holder != all[j].holder && all[i].home != all[j].home
  {
  }

  // ---------------------------------------------------------------- nothing acknowledged is lost

  /** A version some home replica must answer for. */
  datatype Debt = Debt(home: string, key: string, version: Version)

  /** The home replica, or a hint someone keeps for it, has this version or a newer one. */
  ghost predicate Held(nodes: Nodes, d: Debt)
    requires d.home in nodes
  {
    || Covered(Siblings(nodes[d.home], d.key), d.version)
    || exists other :: other in nodes && Covered(HintsFor(nodes[other], d.home, d.key), d.version)
  }

  /** Everything stored has positive clocks and no dominated siblings. */
  ghost predicate Stored(nodes: Nodes) {
    && (forall a, key :: a in nodes && key in nodes[a].data ==>
          AllPositive(nodes[a].data[key]) && Reconcile(nodes[a].data[key]) == nodes[a].data[key])
    && (forall a, h :: a in nodes && h in nodes[a].hints ==> AllPositive(nodes[a].hints[h]))
  }

  /** No node forgets: whatever was covered, in place or as a hint, still is. */
  ghost predicate Grows(s: NodeState, s': NodeState) {
    && (forall key, v: Version :: Positive(v.clock) && Covered(Siblings(s, key), v) ==> Covered(Siblings(s', key), v))
    && (forall home, key, v: Version :: Positive(v.clock) && Covered(HintsFor(s, home, key), v) ==>
          Covered(HintsFor(s', home, key), v))
  }

  lemma StoreGrows(s: NodeState, key: string, versions: set<Version>)
    requires AllPositive(Siblings(s, key)) && AllPositive(versions)
    ensures Grows(s, StoreIn(s, key, versions))
    ensures AllPositive(Siblings(StoreIn(s, key, versions), key))
    ensures forall v :: v in versions ==> Covered(Siblings(StoreIn(s, key, versions), key), v)
  {
    var s' := StoreIn(s, key, versions);
    forall k, v: Version | Positive(v.clock) && Covered(Siblings(s, k), v) ensures Covered(Siblings(s', k), v) {
      if k == key {
        CoveredStays(Siblings(s, key), Siblings(s, key) + versions, v);
      }
    }
    forall v | v in versions ensures Covered(Siblings(s', key), v) {
      ReconcileCovers(Siblings(s, key) + versions, v);
    }
    forall h, k, v: Version | Positive(v.clock) && Covered(HintsFor(s, h, k), v)
      ensures Covered(HintsFor(s', h, k), v) {
      assert HintsFor(s', h, k) == HintsFor(s, h, k);
    }
  }

  lemma HintGrows(s: NodeState, home: string, key: string, version: Version)
    requires AllPositive(HintsFor(s, home, key)) && Positive(version.clock)
    ensures Grows(s, HintIn(s, home, key, version))
    ensures AllPositive(HintsFor(HintIn(s, home, key, version), home, key))
    ensures Covered(HintsFor(HintIn(s, home, key, version), home, key), version)
  {
    var s' := HintIn(s, home, key, version);
    ReconcileCovers(HintsFor(s, home, key) + {version}, version);
    forall h, k, v: Version | Positive(v.clock) && Covered(HintsFor(s, h, k), v)
      ensures Covered(HintsFor(s', h, k), v) {
      if (h, k) == (home, key) {
        CoveredStays(HintsFor(s, home, key), HintsFor(s, home, key) + {version}, v);
      }
    }
    forall k, v: Version | Positive(v.clock) && Covered(Siblings(s, k), v) ensures Covered(Siblings(s', k), v) {
      assert Siblings(s', k) == Siblings(s, k);
    }
  }

  lemma GrowsTransitive(a: NodeState, b: NodeState, c: NodeState)
    requires Grows(a, b) && Grows(b, c)
    ensures Grows(a, c)
  {
  }

  lemma HeldStays(nodes: Nodes, nodes': Nodes, d: Debt)
    requires d.home in nodes && nodes'.Keys == nodes.Keys && Positive(d.version.clock) && Held(nodes, d)
    requires forall a :: a in nodes ==> Grows(nodes[a], nodes'[a])
    ensures Held(nodes', d)
  {
    if Covered(Siblings(nodes[d.home], d.key), d.version) {
      assert Grows(nodes[d.home], nodes'[d.home]);
    } else {
      var other :| other in nodes && Covered(HintsFor(nodes[other], d.home, d.key), d.version);
      assert Grows(nodes[other], nodes'[other]);
    }
  }

  // ---------------------------------------------------------------- invariant of every run

  /** Hints exist only for homes that are down, and only on nodes outside the key's preference list. */
  ghost predicate HintsPlaced(nodes: Nodes, prefs: string -> seq<string>, waking: Option<string>) {
    forall a, h :: a in nodes && h in nodes[a].hints ==>
      && h.0 in nodes && h.0 in prefs(h.1) && a !in prefs(h.1)
      && (nodes[h.0].up ==> waking == Some(h.0))
  }

  ghost predicate Paid(nodes: Nodes, prefs: string -> seq<string>, debts: set<Debt>) {
    forall d :: d in debts ==> d.home in nodes && d.home in prefs(d.key) && Positive(d.version.clock) && Held(nodes, d)
  }

  /** The holder has the version in place, and a stand-in also has it in a hint for the home. */
  ghost predicate Landed(nodes: Nodes, t: Target, key: string, version: Version)
    requires t.holder in nodes
  {
    && Covered(Siblings(nodes[t.holder], key), version)
    && (t.holder != t.home ==> Covered(HintsFor(nodes[t.holder], t.home, key), version))
  }

  lemma LandedStays(nodes: Nodes, nodes': Nodes, t: Target, key: string, version: Version)
    requires t.holder in nodes && t.holder in nodes' && Positive(version.clock) && Landed(nodes, t, key, version)
    requires Grows(nodes[t.holder], nodes'[t.holder])
    ensures Landed(nodes', t, key, version)
  {
    hide Covered;
  }

  lemma LandedIsHeld(nodes: Nodes, t: Target, key: string, version: Version)
    requires t.holder in nodes && t.home in nodes && Landed(nodes, t, key, version)
    ensures Held(nodes, Debt(t.home, key, version))
  {
    hide Covered, HintsFor, Siblings;
  }

  /** One target of a write keeps the stored state well formed and settles that home's new debt. */
  lemma WriteToIsSound(nodes: Nodes, target: Target, key: string, version: Version)
    requires Stored(nodes) && target.holder in nodes && target.home in nodes && Positive(version.clock)
    ensures var nodes' := nodes[target.holder := WriteTo(nodes[target.holder], target, key, version)];
            && Stored(nodes')
            && (forall a :: a in nodes ==> Grows(nodes[a], nodes'[a]) && nodes'[a].up == nodes[a].up)
            && Landed(nodes', target, key, version)
  {
    var s := nodes[target.holder];
    var stored := StoreIn(s, key, {version});
    var nodes' := nodes[target.holder := WriteTo(s, target, key, version)];
    StoreGrows(s, key, {version});
    ReconcileIdempotent(Siblings(s, key) + {version});
    HintGrows(stored, target.home, key, version);
    GrowsTransitive(s, stored, HintIn(stored, target.home, key, version));
    assert Siblings(HintIn(stored, target.home, key, version), key) == Siblings(stored, key);
    if target.holder != target.home {
      assert Covered(HintsFor(nodes'[target.holder], target.home, key), version);
    }
  }

  lemma {:induction false} WriteAllIsSound(nodes: Nodes, targets: seq<Target>, key: string, version: Version)
    requires Stored(nodes) && Positive(version.clock)
    requires forall t :: t in targets ==> t.holder in nodes && t.home in nodes
    ensures var nodes' := WriteAll(nodes, targets, key, version);
            && Stored(nodes')
            && (forall a :: a in nodes ==> Grows(nodes[a], nodes'[a]) && nodes'[a].up == nodes[a].up)
            && (forall t :: t in targets ==>
                  Landed(nodes', t, key, version) && Held(nodes', Debt(t.home, key, version)))
  {
    hide *;
    var nodes' := WriteAll(nodes, targets, key, version);
    if targets == [] {
      WriteNone(nodes, key, version);
      forall a | a in nodes ensures Grows(nodes[a], nodes'[a]) { GrowsReflexive(nodes[a]); }
    } else {
      var k := |targets| - 1;
      assert targets[k] in targets;
      WriteAllIsSound(nodes, targets[..k], key, version);
      var before := WriteAll(nodes, targets[..k], key, version);
      WriteLast(nodes, targets, key, version, before);
      WriteToIsSound(before, targets[k], key, version);
      forall a | a in nodes ensures Grows(nodes[a], nodes'[a]) {
        GrowsTransitive(nodes[a], before[a], nodes'[a]);
      }
      forall t | t in targets ensures Landed(nodes', t, key, version) && Held(nodes', Debt(t.home, key, version)) {
        if t != targets[k] {
          assert t in targets[..k];
          LandedStays(before, nodes', t, key, version);
        }
        LandedIsHeld(nodes', t, key, version);
      }
    }
  }

  lemma WriteNone(nodes: Nodes, key: string, version: Version)
    ensures WriteAll(nodes, [], key, version) == nodes
  {
  }

  lemma WriteLast(nodes: Nodes, targets: seq<Target>, key: string, version: Version, before: Nodes)
    requires targets != [] && before == WriteAll(nodes, targets[..|targets| - 1], key, version)
    requires targets[|targets| - 1].holder in before
    ensures var t := targets[|targets| - 1];
            WriteAll(nodes, targets, key, version) == before[t.holder := WriteTo(before[t.holder], t, key, version)]
  {
  }

  lemma GrowsReflexive(s: NodeState)
    ensures Grows(s, s)
  {
  }

  lemma {:induction false} WriteAllHints(nodes: Nodes, targets: seq<Target>, key: string, version: Version,
                                         prefs: string -> seq<string>)
    requires HintsPlaced(nodes, prefs, None)
    requires forall t :: t in targets ==> t.holder in nodes && t.home in nodes && t.home in prefs(key)
    requires forall t :: t in targets && t.holder != t.home ==> !nodes[t.home].up && t.holder !in prefs(key)
    ensures var nodes' := WriteAll(nodes, targets, key, version);
            HintsPlaced(nodes', prefs, None) && forall a :: a in nodes ==> nodes'[a].up == nodes[a].up
  {
    if targets != [] {
      var k := |targets| - 1;
      assert targets[k] in targets;
      WriteAllHints(nodes, targets[..k], key, version, prefs);
    }
  }

  /** A write pays its own debts and forgets nobody else's. */
  lemma WriteKeepsPaid(nodes: Nodes, targets: seq<Target>, key: string, version: Version, prefs: string -> seq<string>,
                       debts: set<Debt>)
    requires Stored(nodes) && Positive(version.clock) && Paid(nodes, prefs, debts)
    requires forall t :: t in targets ==> t.holder in nodes && t.home in nodes && t.home in prefs(key)
    ensures Paid(WriteAll(nodes, targets, key, version), prefs, debts + set t | t in targets ::
                 Debt(t.home, key, version))
  {
    hide Grows, Stored, Held;
    WriteAllIsSound(nodes, targets, key, version);
    var nodes' := WriteAll(nodes, targets, key, version);
    forall d | d in debts ensures Held(nodes', d) {
      HeldStays(nodes, nodes', d);
    }
  }

  /** Merging more versions into one node keeps every debt paid. */
  lemma StoreKeepsPaid(nodes: Nodes, a: string, key: string, versions: set<Version>, prefs: string -> seq<string>,
                       debts: set<Debt>)
    requires a in nodes && Stored(nodes) && AllPositive(versions) && Paid(nodes, prefs, debts)
    ensures var nodes' := nodes[a := StoreIn(nodes[a], key, versions)];
            Stored(nodes') && Paid(nodes', prefs, debts)
    ensures forall waking :: HintsPlaced(nodes, prefs, waking) ==>
              HintsPlaced(nodes[a := StoreIn(nodes[a], key, versions)], prefs, waking)
  {
    var nodes' := nodes[a := StoreIn(nodes[a], key, versions)];
    StoreGrows(nodes[a], key, versions);
    ReconcileIdempotent(Siblings(nodes[a], key) + versions);
    assert Stored(nodes');
    hide Stored, Held;
    forall d | d in debts ensures Held(nodes', d) {
      forall b | b in nodes ensures Grows(nodes[b], nodes'[b]) {
        GrowsReflexive(nodes[b]);
      }
      HeldStays(nodes, nodes', d);
    }
  }

  // ---------------------------------------------------------------- hinted handoff

  /** `other` hands the writes it kept for `name` back, and drops its own copy of the key unless
      it is a home replica itself. */
  function Deliver(nodes: Nodes, name: string, other: string, key: string, isHome: bool): (r: Nodes)
    requires name in nodes && other in nodes && (name, key) in nodes[other].hints
    ensures r.Keys == nodes.Keys
  {
    var given := nodes[name := StoreIn(nodes[name], key, nodes[other].hints[(name, key)])];
    var o := given[other];
    given[other := o.(hints := o.hints - {(name, key)}, data := if isHome then o.data else o.data - {key})]
  }

  /** All the versions other nodes keep for `home`. */
  ghost function HintUnion(nodes: Nodes, home: string, key: string): set<Version> {
    set a, v | a in nodes && v in HintsFor(nodes[a], home, key) :: v
  }

  lemma DeliverIsSound(nodes: Nodes, name: string, other: string, key: string, prefs: string -> seq<string>,
                       debts: set<Debt>)
    requires Stored(nodes) && HintsPlaced(nodes, prefs, Some(name)) && Paid(nodes, prefs, debts)
    requires name in nodes && other in nodes && (name, key) in nodes[other].hints
    ensures other != name && other !in prefs(key)
    ensures var nodes' := Deliver(nodes, name, other, key, false);
            Stored(nodes') && HintsPlaced(nodes', prefs, Some(name)) && Paid(nodes', prefs, debts)
  {
    var h := nodes[other].hints[(name, key)];
    var nodes' := Deliver(nodes, name, other, key, false);
    DeliverHints(nodes, name, other, key, prefs);
    hide Stored, HintsPlaced, Deliver;
    forall d | d in debts ensures Held(nodes', d) {
      DeliverKeepsDebt(nodes, name, other, key, prefs, d);
    }
    assert Stored(nodes') by {
      DeliverStored(nodes, name, other, key);
    }
  }

  lemma DeliverHints(nodes: Nodes, name: string, other: string, key: string, prefs: string -> seq<string>)
    requires HintsPlaced(nodes, prefs, Some(name))
    requires name in nodes && other in nodes && (name, key) in nodes[other].hints
    ensures other != name && other !in prefs(key)
    ensures HintsPlaced(Deliver(nodes, name, other, key, false), prefs, Some(name))
  {
    var nodes' := Deliver(nodes, name, other, key, false);
    assert other !in prefs(key) && name in prefs(key);
    StoreKeepsHints(nodes[name], key, nodes[other].hints[(name, key)]);
    hide StoreIn;
    forall a, h | a in nodes' && h in nodes'[a].hints
      ensures h.0 in nodes' && h.0 in prefs(h.1) && a !in prefs(h.1) && (nodes'[h.0].up ==> Some(name) == Some(h.0))
    {
      assert h in nodes[a].hints;
    }
  }

  lemma DeliverStored(nodes: Nodes, name: string, other: string, key: string)
    requires Stored(nodes) && name in nodes && other in nodes && other != name && (name, key) in nodes[other].hints
    ensures Stored(Deliver(nodes, name, other, key, false))
  {
    var h := nodes[other].hints[(name, key)];
    StoreGrows(nodes[name], key, h);
    ReconcileIdempotent(Siblings(nodes[name], key) + h);
  }

  lemma DeliverKeepsDebt(nodes: Nodes, name: string, other: string, key: string, prefs: string -> seq<string>, d: Debt)
    requires Stored(nodes) && name in nodes && other in nodes && (name, key) in nodes[other].hints
    requires other != name && other !in prefs(key)
    requires d.home in nodes && d.home in prefs(d.key) && Positive(d.version.clock) && Held(nodes, d)
    ensures Held(Deliver(nodes, name, other, key, false), d)
  {
    var h := nodes[other].hints[(name, key)];
    var nodes' := Deliver(nodes, name, other, key, false);
    StoreGrows(nodes[name], key, h);
    assert nodes'[name] == StoreIn(nodes[name], key, h);
    if Covered(Siblings(nodes[d.home], d.key), d.version) {
      if d.home == other {
        assert d.key != key;
        assert Siblings(nodes'[other], d.key) == Siblings(nodes[other], d.key);
      }
      assert Covered(Siblings(nodes'[d.home], d.key), d.version);
    } else {
      var a :| a in nodes && Covered(HintsFor(nodes[a], d.home, d.key), d.version);
      if a == other && (d.home, d.key) == (name, key) {
        CoveredStays(h, Siblings(nodes[name], key) + h, d.version);
        assert Covered(Siblings(nodes'[name], key), d.version);
      } else {
        assert HintsFor(nodes'[a], d.home, d.key) == HintsFor(nodes[a], d.home, d.key);
      }
    }
  }

  /** Delivery moves versions from hints to the home and loses none on the way. */
  lemma DeliverConserves(nodes: Nodes, name: string, other: string, key: string, k: string)
    requires Stored(nodes) && name in nodes && other in nodes && other != name && (name, key) in nodes[other].hints
    ensures var nodes' := Deliver(nodes, name, other, key, false);
            Reconcile(Siblings(nodes'[name], k) + HintUnion(nodes', name, k)) ==
                Reconcile(Siblings(nodes[name], k) + HintUnion(nodes, name, k))
  {
    var h := nodes[other].hints[(name, key)];
    var nodes' := Deliver(nodes, name, other, key, false);
    hide StoreIn;
    HintsAfterDeliver(nodes, name, other, key, k);
    if k == key {
      var s, rest := Siblings(nodes[name], key), HintUnion(nodes', name, key);
      assert Siblings(nodes'[name], key) == Reconcile(s + h) by { DeliveredSiblings(nodes, name, other, key); }
      assert AllPositive(rest) && AllPositive(h) && AllPositive(s);
      ReconcileUnion(s + h, rest);
      assert (s + h) + rest == s + HintUnion(nodes, name, key);
    } else {
      DeliveredSiblings(nodes, name, other, key);
      assert Siblings(nodes'[name], k) == Siblings(nodes[name], k);
    }
  }

  lemma DeliveredSiblings(nodes: Nodes, name: string, other: string, key: string)
    requires name in nodes && other in nodes && other != name && (name, key) in nodes[other].hints
    ensures var h, nodes' := nodes[other].hints[(name, key)], Deliver(nodes, name, other, key, false);
            && Siblings(nodes'[name], key) == Reconcile(Siblings(nodes[name], key) + h)
            && forall k :: k != key ==> Siblings(nodes'[name], k) == Siblings(nodes[name], k)
  {
  }

  lemma HintsAfterDeliver(nodes: Nodes, name: string, other: string, key: string, k: string)
    requires Stored(nodes) && name in nodes && other in nodes && other != name && (name, key) in nodes[other].hints
    ensures var h, nodes' := nodes[other].hints[(name, key)], Deliver(nodes, name, other, key, false);
            && HintUnion(nodes, name, k) == HintUnion(nodes', name, k) + (if k == key then h else {})
            && AllPositive(HintUnion(nodes', name, k)) && AllPositive(h) && AllPositive(Siblings(nodes[name], k))
  {
    hide *;
    var h, nodes' := nodes[other].hints[(name, key)], Deliver(nodes, name, other, key, false);
    HintsForAfter(nodes, name, other, key, k);
    HintsLeft(nodes, nodes', name, other, k, if k == key then h else {});
    StoredHints(nodes, name, other, key, k);
    PositiveUnion(HintUnion(nodes', name, k), if k == key then h else {});
  }

  /** Of the hints for a key one stand-in gives up `gone`, all it had; the others keep theirs. */
  lemma HintsLeft(nodes: Nodes, nodes': Nodes, name: string, other: string, k: string, gone: set<Version>)
    requires nodes'.Keys == nodes.Keys && other in nodes && gone <= HintsFor(nodes[other], name, k)
    requires forall a :: a in nodes ==>
               HintsFor(nodes[a], name, k) == HintsFor(nodes'[a], name, k) + if a == other then gone else {}
    ensures HintUnion(nodes, name, k) == HintUnion(nodes', name, k) + gone
  {
    hide HintsFor;
    forall v | v in HintUnion(nodes, name, k) ensures v in HintUnion(nodes', name, k) + gone {
      var a :| a in nodes && v in HintsFor(nodes[a], name, k);
    }
    forall v | v in HintUnion(nodes', name, k) ensures v in HintUnion(nodes, name, k) {
      var a :| a in nodes' && v in HintsFor(nodes'[a], name, k);
      assert v in HintsFor(nodes[a], name, k);
    }
  }

  lemma StoredHints(nodes: Nodes, name: string, other: string, key: string, k: string)
    requires Stored(nodes) && name in nodes && other in nodes && (name, key) in nodes[other].hints
    ensures AllPositive(HintUnion(nodes, name, k)) && AllPositive(nodes[other].hints[(name, key)]) &&
            AllPositive(Siblings(nodes[name], k))
  {
    forall a, v | a in nodes && v in HintsFor(nodes[a], name, k) ensures Positive(v.clock) {
      assert AllPositive(nodes[a].hints[(name, k)]);
    }
  }

  lemma PositiveUnion(x: set<Version>, y: set<Version>)
    requires AllPositive(x + y)
    ensures AllPositive(x) && AllPositive(y)
  {
    forall v | v in x || v in y ensures Positive(v.clock) {
      assert v in x + y;
    }
  }

  lemma HintsForAfter(nodes: Nodes, name: string, other: string, key: string, k: string)
    requires name in nodes && other in nodes && other != name && (name, key) in nodes[other].hints
    ensures nodes[other].hints[(name, key)] == HintsFor(nodes[other], name, key)
    ensures forall a :: a in nodes ==>
              && HintsFor(Deliver(nodes, name, other, key, false)[a], name, k) ==
                 (if a == other && k == key then {} else HintsFor(nodes[a], name, k))
              && HintsFor(nodes[a], name, k) ==
                 HintsFor(Deliver(nodes, name, other, key, false)[a], name, k) +
                 (if a == other && k == key then nodes[other].hints[(name, key)] else {})
  {
    StoreKeepsHints(nodes[name], key, nodes[other].hints[(name, key)]);
    hide StoreIn;
  }

  lemma StoreKeepsHints(s: NodeState, key: string, versions: set<Version>)
    ensures StoreIn(s, key, versions).hints == s.hints
  {
  }

  // ---------------------------------------------------------------- a node coming back

  /** A stand-in after it handed over the hints in `gone` that were meant for `name`. */
  ghost function HandedOver(s: NodeState, name: string, gone: set<(string, string)>): NodeState {
    s.(hints := s.hints - (set h | h in gone && h.0 == name),
       data := s.data - (set h | h in gone && h.0 == name :: h.1))
  }

  /** The hints the cluster keeps for `name`, by who keeps them and for which key. */
  ghost function Hinted(nodes: Nodes, name: string): set<(string, string)> {
    set a, h | a in nodes && h in nodes[a].hints && h.0 == name :: (a, h.1)
  }

  /** The keys some hint for `name` is about. */
  ghost function KeysDue(nodes: Nodes, name: string): set<string> {
    set x | x in Hinted(nodes, name) :: x.1
  }

  /** The keys `name` holds, or will once its hints are delivered. */
  ghost function KeysInAll(nodes: Nodes, name: string): set<string>
    requires name in nodes
  {
    nodes[name].data.Keys + KeysDue(nodes, name)
  }

  /** Half way through a handover: nothing is lost, and each stand-in gave up exactly what it delivered. */
  ghost predicate Handing(before: Nodes, nodes: Nodes, name: string)
    requires name in before
  {
    HandingTables(before, nodes, name) && KeysInAll(nodes, name) == KeysInAll(before, name)
  }

  ghost predicate HandingTables(before: Nodes, nodes: Nodes, name: string)
    requires name in before
    ensures HandingTables(before, nodes, name) ==> name in nodes
  {
    && nodes.Keys == before.Keys && Stored(nodes)
    && nodes[name].up && nodes[name].hints == before[name].hints
    && (forall k {:trigger HintUnion(nodes, name, k)} ::
          Reconcile(Siblings(nodes[name], k) + HintUnion(nodes, name, k)) ==
              Reconcile(Siblings(before[name], k) + HintUnion(before, name, k)))
    && (forall a :: a in nodes && a != name ==>
          nodes[a].hints.Keys <= before[a].hints.Keys
          && nodes[a] == HandedOver(before[a], name, before[a].hints.Keys - nodes[a].hints.Keys))
    && Hinted(nodes, name) <= Hinted(before, name)
  }

  lemma StoredUp(nodes: Nodes, name: string)
    requires name in nodes && Stored(nodes)
    ensures Stored(nodes[name := nodes[name].(up := true)])
  {
    hide Reconcile, AllPositive;
  }

  lemma HandingStarts(before: Nodes, name: string)
    requires name in before && Stored(before)
    ensures Handing(before, before[name := before[name].(up := true)], name)
  {
    hide Stored, Reconcile;
    var nodes := before[name := before[name].(up := true)];
    assert Stored(nodes) by {
      StoredUp(before, name);
    }
    assert forall a :: a in nodes ==> nodes[a].hints == before[a].hints;
    forall x ensures x in Hinted(nodes, name) <==> x in Hinted(before, name) {
      assert x.0 in nodes ==> nodes[x.0].hints == before[x.0].hints;
    }
    assert Hinted(nodes, name) == Hinted(before, name);
    forall k ensures HintUnion(nodes, name, k) == HintUnion(before, name, k) {
      assert forall a :: a in nodes ==> HintsFor(nodes[a], name, k) == HintsFor(before[a], name, k);
    }
    forall a | a in nodes && a != name
      ensures nodes[a] == HandedOver(before[a], name, before[a].hints.Keys - nodes[a].hints.Keys)
    {
      var none := before[a].hints.Keys - nodes[a].hints.Keys;
      assert none == {};
      HandNothing(before[a], name);
    }
  }

  lemma HandNothing(s: NodeState, name: string)
    ensures HandedOver(s, name, {}) == s
  {
    var none: set<(string, string)> := {};
    assert s.hints - (set h | h in none && h.0 == name) == s.hints;
    assert s.data - (set h | h in none && h.0 == name :: h.1) == s.data;
  }

  lemma HandingTablesStep(before: Nodes, nodes: Nodes, name: string, other: string, key: string)
    requires name in before && HandingTables(before, nodes, name)
    requires other in nodes && other != name && (name, key) in nodes[other].hints
    ensures var nodes' := Deliver(nodes, name, other, key, false);
            && HandingTables(before, nodes', name)
            && Hinted(nodes', name) == Hinted(nodes, name) - {(other, key)} && (other, key) in Hinted(nodes, name)
            && nodes'[other].hints.Keys == nodes[other].hints.Keys - {(name, key)}
            && (forall a :: a in nodes && a != other ==> nodes'[a].hints == nodes[a].hints)
  {
    hide *;
    var nodes' := Deliver(nodes, name, other, key, false);
    HandingMeans(before, nodes, name);
    DeliverStored(nodes, name, other, key);
    HintedAfter(nodes, name, other, key);
    DeliverTables(nodes, name, other, key);
    HandOneMore(before[other], nodes[other], name, key);
    forall k ensures Reconcile(Siblings(nodes'[name], k) + HintUnion(nodes', name, k)) ==
           Reconcile(Siblings(before[name], k) + HintUnion(before, name, k)) {
      DeliverConserves(nodes, name, other, key, k);
      assert HintUnion(nodes, name, k) == HintUnion(nodes, name, k);
    }
    HandingOn(before, nodes', name);
  }

  lemma HandingMeans(before: Nodes, nodes: Nodes, name: string)
    requires name in before && HandingTables(before, nodes, name)
    ensures nodes.Keys == before.Keys && Stored(nodes) && nodes[name].up && nodes[name].hints == before[name].hints
    ensures forall k {:trigger HintUnion(nodes, name, k)} ::
              Reconcile(Siblings(nodes[name], k) + HintUnion(nodes, name, k)) ==
              Reconcile(Siblings(before[name], k) + HintUnion(before, name, k))
    ensures forall a :: a in nodes && a != name ==>
              nodes[a].hints.Keys <= before[a].hints.Keys
              && nodes[a] == HandedOver(before[a], name, before[a].hints.Keys - nodes[a].hints.Keys)
    ensures Hinted(nodes, name) <= Hinted(before, name)
  {
    hide Stored, Reconcile, Siblings, HintUnion, Hinted, HandedOver;
  }

  lemma HandingOn(before: Nodes, nodes: Nodes, name: string)
    requires name in before && nodes.Keys == before.Keys && Stored(nodes)
    requires nodes[name].up && nodes[name].hints == before[name].hints
    requires forall k :: Reconcile(Siblings(nodes[name], k) + HintUnion(nodes, name, k)) ==
               Reconcile(Siblings(before[name], k) + HintUnion(before, name, k))
    requires forall a :: a in nodes && a != name ==>
               nodes[a].hints.Keys <= before[a].hints.Keys
               && nodes[a] == HandedOver(before[a], name, before[a].hints.Keys - nodes[a].hints.Keys)
    requires Hinted(nodes, name) <= Hinted(before, name)
    ensures HandingTables(before, nodes, name)
  {
    hide Stored, Reconcile, Siblings, HintUnion, Hinted, HandedOver;
  }

  /** What a delivery does to the two nodes, table by table. */
  lemma DeliverTables(nodes: Nodes, name: string, other: string, key: string)
    requires name in nodes && other in nodes && other != name && (name, key) in nodes[other].hints
    ensures var nodes', s := Deliver(nodes, name, other, key, false), nodes[other];
            && nodes'.Keys == nodes.Keys && nodes'[name].up == nodes[name].up && nodes'[name].hints == nodes[name].hints
            && nodes'[other] == s.(hints := s.hints - {(name, key)}, data := s.data - {key})
            && nodes'[other].hints.Keys == s.hints.Keys - {(name, key)}
            && forall a :: a in nodes && a != other && a != name ==> nodes'[a] == nodes[a]
  {
    StoreKeepsHints(nodes[name], key, nodes[other].hints[(name, key)]);
    hide Reconcile;
  }

  lemma HandingStep(before: Nodes, nodes: Nodes, name: string, other: string, key: string)
    requires name in before && Handing(before, nodes, name)
    requires other in nodes && other != name && (name, key) in nodes[other].hints
    ensures var nodes' := Deliver(nodes, name, other, key, false);
            && Handing(before, nodes', name)
            && Hinted(nodes', name) == Hinted(nodes, name) - {(other, key)} && (other, key) in Hinted(nodes, name)
            && nodes'[other].hints.Keys == nodes[other].hints.Keys - {(name, key)}
            && (forall a :: a in nodes && a != other ==> nodes'[a].hints == nodes[a].hints)
  {
    hide HandingTables, KeysInAll, Hinted, Deliver;
    HandingTablesStep(before, nodes, name, other, key);
    KeysAfter(nodes, name, other, key);
  }

  lemma HandOneMore(before: NodeState, s: NodeState, name: string, key: string)
    requires s.hints.Keys <= before.hints.Keys && (name, key) in s.hints
    requires s == HandedOver(before, name, before.hints.Keys - s.hints.Keys)
    ensures s.(hints := s.hints - {(name, key)}, data := s.data - {key}) ==
            HandedOver(before, name, before.hints.Keys - (s.hints - {(name, key)}).Keys)
  {
    var gone := before.hints.Keys - s.hints.Keys;
    var s' := s.(hints := s.hints - {(name, key)}, data := s.data - {key});
    var more := before.hints.Keys - s'.hints.Keys;
    assert more == gone + {(name, key)};
    var g, m := set h | h in gone && h.0 == name, set h | h in more && h.0 == name;
    assert m == g + {(name, key)};
    assert before.hints - m == (before.hints - g) - {(name, key)};
    var gk, mk := set h | h in gone && h.0 == name :: h.1, set h | h in more && h.0 == name :: h.1;
    assert mk == gk + {key} by {
      assert (name, key) in more;
    }
    assert before.data - mk == (before.data - gk) - {key};
  }

  lemma KeysAfter(nodes: Nodes, name: string, other: string, key: string)
    requires name in nodes && other in nodes && other != name && (name, key) in nodes[other].hints
    ensures var nodes' := Deliver(nodes, name, other, key, false);
            KeysInAll(nodes', name) == KeysInAll(nodes, name)
  {
    var nodes' := Deliver(nodes, name, other, key, false);
    HintedAfter(nodes, name, other, key);
    assert nodes'[name].data.Keys == nodes[name].data.Keys + {key};
    hide Hinted;
    assert (other, key).1 == key;
    forall k ensures k in KeysDue(nodes, name) <==> k in KeysDue(nodes', name) || k == key {
      if x :| x in Hinted(nodes, name) && x.1 == k && k != key {
        assert x in Hinted(nodes', name);
      }
    }
  }

  lemma HintedAfter(nodes: Nodes, name: string, other: string, key: string)
    requires name in nodes && other in nodes && other != name && (name, key) in nodes[other].hints
    ensures var nodes' := Deliver(nodes, name, other, key, false);
            Hinted(nodes', name) == Hinted(nodes, name) - {(other, key)} && (other, key) in Hinted(nodes, name)
  {
    var nodes' := Deliver(nodes, name, other, key, false);
    StoreKeepsHints(nodes[name], key, nodes[other].hints[(name, key)]);
    hide StoreIn;
    assert (name, key).1 == key;
    forall a, k ensures (a, k) in Hinted(nodes', name) <==> (a, k) in Hinted(nodes, name) - {(other, key)} {
      if a in nodes {
        assert (name, k) in nodes'[a].hints <==> (name, k) in nodes[a].hints && (a, k) != (other, key);
      }
    }
  }

  /** With no hints left, the node that came back holds what it had and what was kept for it,
      reconciled, and the stand-ins keep neither the hints nor their copies. */
  lemma HandingEnds(before: Nodes, nodes: Nodes, name: string)
    requires name in before && Handing(before, nodes, name)
    requires forall a, h :: a in nodes && h in nodes[a].hints ==> h.0 != name
    ensures forall k :: Siblings(nodes[name], k) == Reconcile(Siblings(before[name], k) + HintUnion(before, name, k))
    ensures forall a :: a in nodes && a != name ==> nodes[a] == HandedOver(before[a], name, before[a].hints.Keys)
    ensures Hinted(nodes, name) == {}
    ensures nodes[name].data.Keys == before[name].data.Keys + KeysDue(before, name)
  {
    assert KeysDue(nodes, name) == {} && nodes[name].data.Keys + {} == nodes[name].data.Keys;
    forall k ensures Siblings(nodes[name], k) == Reconcile(Siblings(before[name], k) + HintUnion(before, name, k)) {
      assert HintUnion(nodes, name, k) == {};
      assert Siblings(nodes[name], k) + {} == Siblings(nodes[name], k);
      assert Reconcile(Siblings(nodes[name], k)) == Siblings(nodes[name], k);
    }
    forall a | a in nodes && a != name ensures nodes[a] == HandedOver(before[a], name, before[a].hints.Keys) {
      HandedIsAll(before[a], nodes[a], name);
    }
  }

  lemma HandedIsAll(before: NodeState, s: NodeState, name: string)
    requires s.hints.Keys <= before.hints.Keys
    requires s == HandedOver(before, name, before.hints.Keys - s.hints.Keys)
    requires forall h :: h in s.hints ==> h.0 != name
    ensures s == HandedOver(before, name, before.hints.Keys)
  {
    var gone := before.hints.Keys - s.hints.Keys;
    assert (set h | h in gone && h.0 == name) == (set h | h in before.hints.Keys && h.0 == name);
    assert (set h | h in gone && h.0 == name :: h.1) == (set h | h in before.hints.Keys && h.0 == name :: h.1);
  }

  /** Going down loses no data and no hint. */
  lemma FailKeepsPaid(nodes: Nodes, name: string, up: bool, prefs: string -> seq<string>, debts: set<Debt>)
    requires name in nodes && Stored(nodes) && Paid(nodes, prefs, debts)
    ensures Stored(nodes[name := nodes[name].(up := up)]) && Paid(nodes[name := nodes[name].(up := up)], prefs, debts)
    ensures HintsPlaced(nodes, prefs, None) ==>
              HintsPlaced(nodes[name := nodes[name].(up := up)], prefs, if up then Some(name) else None)
  {
    var nodes' := nodes[name := nodes[name].(up := up)];
    forall d | d in debts ensures Held(nodes', d) {
      forall a | a in nodes ensures Grows(nodes[a], nodes'[a]) {
        SameContentGrows(nodes[a], nodes'[a]);
      }
      HeldStays(nodes, nodes', d);
    }
  }

  lemma SameContentGrows(s: NodeState, t: NodeState)
    requires s.data == t.data && s.hints == t.hints
    ensures Grows(s, t)
  {
  }

  // ---------------------------------------------------------------- anti-entropy

  /** A node of the pair `a`, `b` after both took the union of their siblings for every key in `keys`. */
  ghost function SyncedNode(s: NodeState, a: NodeState, b: NodeState, keys: set<string>): NodeState {
    s.(data := map k | k in s.data.Keys + keys ::
       if k in keys then Reconcile(Siblings(a, k) + Siblings(b, k)) else s.data[k])
  }

  ghost function SyncAll(nodes: Nodes, left: string, right: string, keys: set<string>): (r: Nodes)
    requires left in nodes && right in nodes
    ensures r.Keys == nodes.Keys
  {
    map a | a in nodes :: if a == left || a == right then SyncedNode(nodes[a], nodes[left], nodes[right], keys)
        else nodes[a]
  }

  lemma SyncNothing(nodes: Nodes, left: string, right: string)
    requires left in nodes && right in nodes
    ensures SyncAll(nodes, left, right, {}) == nodes
  {
    forall a | a in nodes ensures SyncAll(nodes, left, right, {})[a] == nodes[a] {
      assert SyncedNode(nodes[a], nodes[left], nodes[right], {}).data == nodes[a].data;
    }
  }

  /** Storing the merged siblings of one more key on both nodes, one after the other. */
  lemma SyncStep(nodes: Nodes, left: string, right: string, keys: set<string>, key: string)
    requires left in nodes && right in nodes && Stored(nodes)
    ensures var now := SyncAll(nodes, left, right, keys);
            var merged := Reconcile(Siblings(now[left], key) + Siblings(now[right], key));
            var then1 := now[left := StoreIn(now[left], key, merged)];
            && AllPositive(merged)
            && then1[right := StoreIn(then1[right], key, merged)] == SyncAll(nodes, left, right, keys + {key})
  {
    hide Reconcile, SyncedNode, StoreIn, Stored, Siblings;
    var now := SyncAll(nodes, left, right, keys);
    var x, y := nodes[left], nodes[right];
    var both := Reconcile(Siblings(x, key) + Siblings(y, key));
    MergedOnce(nodes, left, right, keys, key);
    StoredBoth(x, x, y, keys, key, both);
    StoredBoth(y, x, y, keys, key, both);
    var then1 := now[left := StoreIn(now[left], key, both)];
    var then2 := then1[right := StoreIn(then1[right], key, both)];
    var goal := SyncAll(nodes, left, right, keys + {key});
    if left == right {
      StoredTwice(now[left], key, both);
    }
    assert then2[left] == goal[left] && then2[right] == goal[right];
    assert then2 == goal;
  }

  lemma MergedOnce(nodes: Nodes, left: string, right: string, keys: set<string>, key: string)
    requires left in nodes && right in nodes && Stored(nodes)
    ensures var now := SyncAll(nodes, left, right, keys);
            var a, b := Siblings(nodes[left], key), Siblings(nodes[right], key);
            var both := Reconcile(a + b);
            && Reconcile(Siblings(now[left], key) + Siblings(now[right], key)) == both == Reconcile(both)
            && Reconcile(a + both) == both && Reconcile(b + both) == both && AllPositive(both)
  {
    var a, b := Siblings(nodes[left], key), Siblings(nodes[right], key);
    assert AllPositive(a) && AllPositive(b);
    ReconcileIdempotent(a + b);
    Absorbed(a, b);
    Absorbed(b, a);
    assert b + a == a + b;
    var both := Reconcile(a + b);
    hide Stored;
    assert both + both == both;
  }

  lemma Absorbed(a: set<Version>, b: set<Version>)
    requires AllPositive(a) && AllPositive(b)
    ensures Reconcile(a + Reconcile(a + b)) == Reconcile(a + b)
  {
    ReconcileUnion(a + b, a);
    assert a + Reconcile(a + b) == Reconcile(a + b) + a && (a + b) + a == a + b;
  }

  lemma StoredTwice(s: NodeState, key: string, merged: set<Version>)
    requires Reconcile(merged) == merged && Reconcile(Siblings(s, key) + merged) == merged
    ensures StoreIn(StoreIn(s, key, merged), key, merged) == StoreIn(s, key, merged)
  {
    assert merged + merged == merged;
  }

  lemma SyncedSiblings(s: NodeState, a: NodeState, b: NodeState, keys: set<string>, key: string, merged: set<Version>)
    requires merged == Reconcile(Siblings(a, key) + Siblings(b, key))
    ensures Siblings(SyncedNode(s, a, b, keys), key) == if key in keys then merged else Siblings(s, key)
  {
    hide Reconcile;
  }

  lemma SyncedMore(s: NodeState, a: NodeState, b: NodeState, keys: set<string>, key: string, merged: set<Version>)
    requires merged == Reconcile(Siblings(a, key) + Siblings(b, key))
    requires Reconcile(Siblings(SyncedNode(s, a, b, keys), key) + merged) == merged
    ensures StoreIn(SyncedNode(s, a, b, keys), key, merged) == SyncedNode(s, a, b, keys + {key})
  {
    hide Reconcile;
    assert StoreIn(SyncedNode(s, a, b, keys), key, merged).data == SyncedNode(s, a, b, keys + {key}).data;
  }

  lemma StoredBoth(s: NodeState, a: NodeState, b: NodeState, keys: set<string>, key: string, merged: set<Version>)
    requires s == a || s == b
    requires merged == Reconcile(Siblings(a, key) + Siblings(b, key)) == Reconcile(merged)
    requires Reconcile(Siblings(s, key) + merged) == merged
    ensures Reconcile(Siblings(SyncedNode(s, a, b, keys), key) + merged) == merged
    ensures StoreIn(SyncedNode(s, a, b, keys), key, merged) == SyncedNode(s, a, b, keys + {key})
  {
    hide Reconcile;
    SyncedSiblings(s, a, b, keys, key, merged);
    assert merged + merged == merged;
    hide Siblings, StoreIn, SyncedNode;
    SyncedMore(s, a, b, keys, key, merged);
  }

  /** After a sync two nodes agree on a key exactly when it was synced or they agreed already;
      what they agree on is the reconciled union. */
  lemma SyncAgrees(nodes: Nodes, left: string, right: string, keys: set<string>, key: string)
    requires left in nodes && right in nodes && Stored(nodes)
    ensures var now := SyncAll(nodes, left, right, keys);
            var both := Reconcile(Siblings(nodes[left], key) + Siblings(nodes[right], key));
            && (Siblings(now[left], key) == Siblings(now[right], key) <==>
                  key in keys || Siblings(nodes[left], key) == Siblings(nodes[right], key))
            && (Siblings(now[left], key) == Siblings(now[right], key) ==> Siblings(now[left], key) == both)
  {
    var a := Siblings(nodes[left], key);
    assert Reconcile(a) == a && a + a == a;
    hide Reconcile;
  }

  // ---------------------------------------------------------------- overlapping quorums

  /** Enough acknowledging homes and enough answering homes, out of `n`, must share one. */
  lemma QuorumsOverlap(homes: seq<string>, acked: set<string>, answering: set<string>, w: nat, r: nat)
    requires acked <= (set h | h in homes) && answering <= (set h | h in homes)
    requires |acked| >= w && |answering| >= r && w + r > |homes|
    ensures acked * answering != {}
  {
    if acked * answering == {} {
      var both := acked + answering;
      assert |both| == |acked| + |answering|;
      SetOfSeq(homes);
      SubsetCount(both, set h | h in homes);
    }
  }

  lemma {:induction false} SetOfSeq(s: seq<string>)
    ensures |set h | h in s| <= |s|
  {
    if s != [] {
      var k := |s| - 1;
      SetOfSeq(s[..k]);
      assert s == s[..k] + [s[k]];
      assert (set h | h in s) == (set h | h in s[..k]) + {s[k]};
    }
  }

  lemma {:induction false} SubsetCount(a: set<string>, b: set<string>)
    requires a <= b
    ensures |a| <= |b|
    decreases a
  {
    if x :| x in a {
      SubsetCount(a - {x}, b - {x});
    }
  }

  lemma {:induction false} ApartCount(s: seq<string>)
    requires Apart(s)
    ensures |set h | h in s| == |s|
  {
    if s != [] {
      var k := |s| - 1;
      ApartCount(s[..k]);
      assert s == s[..k] + [s[k]];
      assert (set h | h in s) == (set h | h in s[..k]) + {s[k]};
    }
  }
}
