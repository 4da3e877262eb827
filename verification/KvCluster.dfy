/** The Dynamo-style cluster: sloppy quorums, hinted handoff, read repair and anti-entropy. */
module KvCluster {
  import opened Versions
  import opened KvState
  import opened Powers
  import MerkleTree
  import opened Wrappers

  datatype Result<+T> = Ok(value: T) | QuorumFailed | Invalid | NotFound

  /** `hinted` lists the stand-ins, each with the home it stands in for. */
  datatype WriteResult = WriteResult(clock: Clock, ackedBy: seq<string>, hinted: seq<(string, string)>)

  /** The surviving siblings, and the context to hand back with the next write. */
  datatype ReadResult = ReadResult(siblings: set<Version>, context: Clock, answeredBy: seq<string>)

  datatype SyncResult = SyncResult(buckets: seq<nat>, comparisons: nat, keysSynced: set<string>)

  /** A successful write: the homes that answer for it. */
  datatype Ack = Ack(key: string, version: Version, homes: set<string>)

  class StorageNode {
    const name: string
    var up: bool
    var data: map<string, set<Version>>
    var hints: map<(string, string), set<Version>>  // (home, key)

    ghost function Snapshot(): NodeState
      reads this
    {
      NodeState(up, data, hints)
    }

    constructor (name: string)
      ensures this.name == name && Snapshot() == NodeState(true, map[], map[])
    {
      this.name, up, data, hints := name, true, map[], map[];
    }

    function Held(key: string): set<Version>
      reads this
    {
      if key in data then data[key] else {}
    }

    method Store(key: string, versions: set<Version>) returns (changed: bool)
      modifies this`data
      ensures Snapshot() == StoreIn(old(Snapshot()), key, versions)
      ensures changed <==> key !in old(data) || data[key] != old(data[key])
    {
      var merged := Reconcile(Held(key) + versions);
      changed := key !in data || merged != data[key];
      data := data[key := merged];
    }
  }

  class KVCluster {
    const names: seq<string>  // every node, in the order the cluster was built with
    const nodes: map<string, StorageNode>
    const order: string -> seq<string>  // every node, clockwise from the key
    const n: nat
    const w: nat
    const r: nat
    const sloppy: bool
    ghost var debts: set<Debt>
    ghost var acked: set<Ack>

    /** A key's home replicas. */
    function Homes(key: string): seq<string> {
      if n <= |order(key)| then order(key)[..n] else order(key)
    }

    ghost predicate Wired() {
      && Apart(names) && (forall a :: a in names <==> a in nodes)
      && (forall a, b :: a in nodes && b in nodes && a != b ==> nodes[a] != nodes[b])
      && (forall key :: Apart(order(key)) && |order(key)| == |names| && forall a :: a in order(key) <==> a in nodes)
      && 1 <= n <= |names| && 1 <= w <= n && 1 <= r <= n
    }

    ghost function State(): (s: Nodes)
      reads nodes.Values
      ensures s.Keys == nodes.Keys && forall a :: a in nodes ==> s[a] == nodes[a].Snapshot()
    {
      map a | a in nodes :: nodes[a].Snapshot()
    }

    /** The invariant of every run: what the nodes hold, what is owed and what was acknowledged. */
    ghost predicate Sound(s: Nodes, debts: set<Debt>, acked: set<Ack>) {
      SoundWhile(s, None, debts, acked)
    }

    /** The same while node `waking` is up and being handed its hints. */
    ghost predicate SoundWhile(s: Nodes, waking: Option<string>, debts: set<Debt>, acked: set<Ack>) {
      && s.Keys == nodes.Keys && Stored(s) && HintsPlaced(s, Homes, waking) && Paid(s, Homes, debts)
      && Backed(debts, acked)
      && (!sloppy ==> NoHints(s))
    }

    /** Every acknowledged write is owed by at least `w` of its key's homes. */
    ghost predicate Backed(debts: set<Debt>, acked: set<Ack>) {
      forall a :: a in acked ==>
        |a.homes| >= w && forall h :: h in a.homes ==> h in Homes(a.key) && Debt(h, a.key, a.version) in debts
    }

    ghost predicate Valid()
      reads this, nodes.Values
    {
      Wired() && Sound(State(), debts, acked)
    }

    /** Only node `a` changed. */
    twostate lemma OnlyAt(a: string)
      requires Wired() && a in nodes
      requires forall b :: b in nodes && b != a ==> unchanged(nodes[b])
      ensures State() == old(State())[a := nodes[a].Snapshot()]
    {
    }

    /** Every node up and empty. */
    constructor (nodes: map<string, StorageNode>, names: seq<string>, order: string -> seq<string>, n: nat, w: nat,
                 r: nat, sloppy: bool)
      requires Apart(names) && (forall a :: a in names <==> a in nodes)
      requires forall a :: a in nodes ==> nodes[a].Snapshot() == NodeState(true, map[], map[])
      requires forall a, b :: a in nodes && b in nodes && a != b ==> nodes[a] != nodes[b]
      requires forall key :: Apart(order(key)) && |order(key)| == |names| && forall a :: a in order(key) <==> a in names
      requires 1 <= n <= |names| && 1 <= w <= n && 1 <= r <= n
      ensures Valid() && acked == {} && debts == {} && this.nodes == nodes && this.names == names
      ensures this.n == n && this.w == w && this.r == r && this.sloppy == sloppy && this.order == order
    {
      this.names, this.nodes, this.order, this.n, this.w, this.r, this.sloppy := names, nodes, order, n, w, r, sloppy;
      debts, acked := {}, {};
      new;
      hide Wired, Sound, Homes;
      assert Wired() by {
        StillWired();
      }
      EmptyIsSound(State());
    }

    lemma StillWired()
      requires Apart(names) && (forall a :: a in names <==> a in nodes)
      requires forall a, b :: a in nodes && b in nodes && a != b ==> nodes[a] != nodes[b]
      requires forall key :: Apart(order(key)) && |order(key)| == |names| && forall a :: a in order(key) <==> a in names
      requires 1 <= n <= |names| && 1 <= w <= n && 1 <= r <= n
      ensures Wired()
    {
    }

    lemma EmptyIsSound(s: Nodes)
      requires s.Keys == nodes.Keys && forall a :: a in s ==> s[a] == NodeState(true, map[], map[])
      ensures Sound(s, {}, {})
    {
    }

    // ------------------------------------------------------------ targets

    method UpOnly(candidates: seq<string>) returns (spares: seq<string>)
      requires forall a :: a in candidates ==> a in nodes
      ensures spares == SparesOf(State(), candidates)
    {
      spares := [];
      for i := 0 to |candidates|
        invariant spares == SparesOf(State(), candidates[..i])
      {
        assert candidates[..i + 1][..i] == candidates[..i];
        if nodes[candidates[i]].up {
          spares := spares + [candidates[i]];
        }
      }
      assert candidates[..|candidates|] == candidates;
    }

    /** Whom a request for `key` reaches. */
    ghost function Reach(s: Nodes, key: string): seq<Target>
      requires Wired() && s.Keys == nodes.Keys
    {
      TargetsOf(s, Homes(key), SparesOf(s, order(key)[n..]), sloppy)
    }

    method Targets(key: string) returns (targets: seq<Target>)
      requires Wired()
      ensures targets == Reach(State(), key)
    {
      hide *;
      HomesExist(key);
      var homes := Homes(key);
      var spares := UpOnly(order(key)[n..]);
      ghost var s := State();
      ghost var all := TargetsOf(s, homes, spares, sloppy);
      ReachIs(s, key);
      assert [] + all == all && homes[0..] == homes && spares[0..] == spares;
      targets := [];
      var used := 0;
      for i := 0 to |homes|
        invariant used <= |spares|
        invariant targets + TargetsOf(s, homes[i..], spares[used..], sloppy) == all
      {
        var home := homes[i];
        assert home in homes;
        UpIs(home);
        NextTarget(s, homes, spares, sloppy, i, used);
        if nodes[home].up {
          MoveOne(targets, Target(home, home), TargetsOf(s, homes[i + 1..], spares[used..], sloppy));
          targets := targets + [Target(home, home)];
        } else if sloppy && used < |spares| {
          MoveOne(targets, Target(home, spares[used]), TargetsOf(s, homes[i + 1..], spares[used + 1..], sloppy));
          targets := targets + [Target(home, spares[used])];
          used := used + 1;
        }
      }
      NoTargets(s, homes, spares, used);
    }

    lemma UpIs(a: string)
      requires a in nodes
      ensures State()[a].up == nodes[a].up
    {
    }

    lemma HomesExist(key: string)
      requires Wired()
      ensures n <= |order(key)| && (forall h :: h in Homes(key) ==> h in nodes) &&
              forall a :: a in order(key)[n..] ==> a in nodes
      ensures forall s: Nodes :: s.Keys == nodes.Keys ==> forall h :: h in Homes(key) ==> h in s
    {
    }

    lemma ReachIs(s: Nodes, key: string)
      requires Wired() && s.Keys == nodes.Keys
      ensures n <= |order(key)| && (forall h :: h in Homes(key) ==> h in s) &&
              forall a :: a in order(key)[n..] ==> a in s
      ensures Reach(s, key) == TargetsOf(s, Homes(key), SparesOf(s, order(key)[n..]), sloppy)
    {
    }

    lemma NoTargets(s: Nodes, homes: seq<string>, spares: seq<string>, used: nat)
      requires used <= |spares| && forall h :: h in homes ==> h in s
      ensures TargetsOf(s, homes[|homes|..], spares[used..], sloppy) == []
    {
    }

    /** What every target list guarantees. */
    lemma ReachIsSound(s: Nodes, key: string)
      requires Wired() && s.Keys == nodes.Keys
      ensures var ts := Reach(s, key);
              && (forall t :: t in ts ==> t.home in Homes(key) && t.holder in nodes && s[t.holder].up)
              && (forall t :: t in ts ==>
                    if s[t.home].up then t.holder == t.home else sloppy && t.holder !in Homes(key))
              && (forall i, j :: 0 <= i < j < |ts| ==> ts[i].holder != ts[j].holder && ts[i].home != ts[j].home)
              && (forall h :: h in Homes(key) && s[h].up ==> Target(h, h) in ts)
    {
      SplitApart(order(key), n);
      TargetsAreSound(s, Homes(key), SparesOf(s, order(key)[n..]), sloppy);
    }

    // ------------------------------------------------------------ writes

    method WriteOne(target: Target, key: string, version: Version)
      requires Wired() && target.holder in nodes
      modifies nodes[target.holder]
      ensures State() == old(State())[target.holder := WriteTo(old(State())[target.holder], target, key, version)]
    {
      var node := nodes[target.holder];
      var changed := node.Store(key, {version});
      if target.holder != target.home {
        var kept := if (target.home, key) in node.hints then node.hints[(target.home, key)] else {};
        node.hints := node.hints[(target.home, key) := Reconcile(kept + {version})];
      }
      OnlyAt(target.holder);
    }

    /** The highest counter `coordinator` has in the siblings it stores. */
    method HighestSeen(versions: set<Version>, coordinator: string) returns (seen: nat)
      ensures IsHighest(versions, coordinator, seen)
    {
      seen := 0;
      var rest := versions;
      while rest != {}
        invariant rest <= versions
        invariant forall v :: v in versions && v !in rest ==> Counter(v.clock, coordinator) <= seen
        invariant seen == 0 || exists v :: v in versions && Counter(v.clock, coordinator) == seen
        decreases |rest|
      {
        var v :| v in rest;
        seen := Max(seen, Counter(v.clock, coordinator));
        rest := rest - {v};
      }
    }

    /** Write through `via`, or the first holder reached. An unknown or unreachable coordinator is
        refused, and so is a write that reaches fewer than `w` holders. */
    method Put(key: string, value: Option<string>, context: Clock, via: Option<string>)
        returns (res: Result<WriteResult>, version: Version)
      requires Valid() && Positive(context)
      modifies this`debts, this`acked, nodes.Values
      ensures Valid()
      ensures var ts := old(Reach(State(), key));
              if |ts| < w then
                res.QuorumFailed? && State() == old(State()) && debts == old(debts) && acked == old(acked)
              else if via.Some? && via.value !in Holders(ts) then
                res.Invalid? && State() == old(State()) && debts == old(debts) && acked == old(acked)
              else
                && res == Ok(WriteResult(version.clock, Holders(ts), StandIns(ts)))
                && (forall h :: h in res.value.hinted ==> HintKept(State(), h, key, version))
                && version.value == value
                && State() == WriteAll(old(State()), ts, key, version)
                && debts == old(debts) + DebtsOf(ts, key, version)
                && acked == old(acked) + {Ack(key, version, set t | t in ts :: t.home)}
                && var coordinator := if via.Some? then via.value else ts[0].holder;
                   && IsNewAt(old(State()), coordinator, key, version)
                   && (exists seen :: IsHighest(Siblings(old(State())[coordinator], key), coordinator, seen)
                                      && version.clock == Increment(context, coordinator, seen))
                   && forall v :: DescendsFrom(context, v) ==> Dominates(version.clock, v)
    {
      hide *;
      ghost var before := State();
      version := Version(value, map[]);
      Unpack();
      var targets := Targets(key);
      HoldersCount(targets);
      var holders := Holders(targets);
      if |holders| < w {
        return QuorumFailed, version;
      }
      var coordinator := if via.Some? then via.value else holders[0];
      if coordinator !in holders {
        return Invalid, version;
      }
      HoldersExist(before, key);
      var local := nodes[coordinator].Held(key);
      var seen := HighestSeen(local, coordinator);
      var clock := Increment(context, coordinator, seen);
      version := Version(value, clock);
      HeldIsSiblings(coordinator, key);
      NewVersion(before, coordinator, key, version, context, seen);
      var hinted := Commit(targets, key, version);
      return Ok(WriteResult(clock, holders, hinted)), version;
    }

    /** Every listed stand-in keeps the version in a hint for its home, which is down. */
    lemma HintsAreKept(s: Nodes, key: string, version: Version)
      requires Wired() && s.Keys == nodes.Keys && Sound(s, debts, acked) && Positive(version.clock)
      ensures forall h :: h in StandIns(Reach(s, key)) ==>
                HintKept(WriteAll(s, Reach(s, key), key, version), h, key, version)
    {
      hide *;
      var ts := Reach(s, key);
      ReachIsSound(s, key);
      HoldersExist(s, key);
      HomesExist(key);
      SoundIsStored(s, None, debts, acked);
      WriteAllIsSound(s, ts, key, version);
      forall h | h in StandIns(ts) ensures HintKept(WriteAll(s, ts, key, version), h, key, version) {
        StandInsMean(ts, h);
        LandedHint(WriteAll(s, ts, key, version), Target(h.1, h.0), key, version);
      }
    }

    /** Write to every target and take the debts on. */
    method Commit(targets: seq<Target>, key: string, version: Version) returns (hinted: seq<(string, string)>)
      requires Valid() && Positive(version.clock) && targets == Reach(State(), key) && |targets| >= w
      modifies this`debts, this`acked, nodes.Values
      ensures Valid()
      ensures State() == WriteAll(old(State()), targets, key, version)
      ensures hinted == StandIns(targets) && forall h :: h in hinted ==> HintKept(State(), h, key, version)
      ensures debts == old(debts) + DebtsOf(targets, key, version)
      ensures acked == old(acked) + {Ack(key, version, set t | t in targets :: t.home)}
    {
      hide *;
      Unpack();
      ghost var before := State();
      PutKeepsSound(before, key, version, debts, acked);
      HoldersExist(before, key);
      hinted := WriteEverywhere(targets, key, version);
      HintsAreKept(before, key, version);
      debts := debts + DebtsOf(targets, key, version);
      acked := acked + {Ack(key, version, set t | t in targets :: t.home)};
      Repack();
    }

    method WriteEverywhere(targets: seq<Target>, key: string, version: Version) returns (hinted: seq<(string, string)>)
      requires Wired() && forall t :: t in targets ==> t.holder in nodes
      modifies nodes.Values
      ensures State() == WriteAll(old(State()), targets, key, version) && hinted == StandIns(targets)
    {
      hide Wired, WriteTo;
      ghost var before := State();
      assert targets[..0] == [];
      hinted := [];
      for i := 0 to |targets|
        invariant State() == WriteAll(before, targets[..i], key, version) && hinted == StandIns(targets[..i])
      {
        assert targets[..i + 1][..i] == targets[..i] && targets[i] in targets;
        WriteOne(targets[i], key, version);
        if targets[i].holder != targets[i].home {
          hinted := hinted + [(targets[i].holder, targets[i].home)];
        }
      }
      assert targets[..|targets|] == targets;
    }

    lemma Unpack()
      requires Valid()
      ensures Wired() && Sound(State(), debts, acked) && w >= 1 && State().Keys == nodes.Keys
    {
    }

    lemma Repack()
      requires Wired() && Sound(State(), debts, acked)
      ensures Valid()
    {
    }

    lemma HoldersExist(s: Nodes, key: string)
      requires Wired() && s.Keys == nodes.Keys
      ensures forall t :: t in Reach(s, key) ==> t.holder in nodes
      ensures forall a :: a in Holders(Reach(s, key)) ==> a in nodes
    {
      ReachIsSound(s, key);
    }

    lemma HeldIsSiblings(a: string, key: string)
      requires a in nodes
      ensures nodes[a].Held(key) == Siblings(State()[a], key)
    {
    }

    /** A write keeps the invariant: it pays its own debts and breaks nobody else's. */
    lemma PutKeepsSound(s: Nodes, key: string, version: Version, debts: set<Debt>, acked: set<Ack>)
      requires Wired() && Sound(s, debts, acked) && Positive(version.clock) && |Reach(s, key)| >= w
      ensures var ts := Reach(s, key);
              Sound(WriteAll(s, ts, key, version), debts + DebtsOf(ts, key, version),
                    acked + {Ack(key, version, set t | t in ts :: t.home)})
    {
      var ts := Reach(s, key);
      ReachIsSound(s, key);
      WriteAllIsSound(s, ts, key, version);
      WriteAllHints(s, ts, key, version, Homes);
      WriteKeepsPaid(s, ts, key, version, Homes, debts);
      HomesCount(ts);
      if !sloppy {
        PlainWriteNoHints(s, ts, key, version);
      }
      hide WriteAll, Stored, HintsPlaced, Paid, Reach, NoHints, Homes;
      assert Backed(debts + DebtsOf(ts, key, version), acked + {Ack(key, version, set t | t in ts :: t.home)}) by {
        NewAckBacked(ts, key, version, debts, acked);
      }
    }

    lemma NewAckBacked(ts: seq<Target>, key: string, version: Version, debts: set<Debt>, acked: set<Ack>)
      requires Backed(debts, acked) && |set t | t in ts :: t.home| >= w
      requires forall t :: t in ts ==> t.home in Homes(key)
      ensures Backed(debts + DebtsOf(ts, key, version), acked + {Ack(key, version, set t | t in ts :: t.home)})
    {
      hide Homes;
      forall h | h in (set t | t in ts :: t.home) ensures Debt(h, key, version) in DebtsOf(ts, key, version) {
        var t :| t in ts && t.home == h;
      }
    }

    // ------------------------------------------------------------ reads

    /** Merge what the first `r` holders have, and bring the stale ones among them up to date. */
    method Get(key: string) returns (res: Result<ReadResult>, repaired: seq<string>)
      requires Valid()
      modifies nodes.Values
      ensures Valid()
      ensures var holders := Holders(old(Reach(State(), key)));
              if |holders| < r then
                res.QuorumFailed? && State() == old(State()) && repaired == []
              else
                && res.Ok? && res.value.answeredBy == holders[..r]
                && res.value.siblings == Reconcile(AllSiblings(old(State()), holders[..r], key))
                && IsJoin(res.value.context, res.value.siblings)
                && State() == (if res.value.siblings == {} then old(State())
                               else StoreAll(old(State()), holders[..r], key, res.value.siblings))
                && (forall a :: a in repaired <==>
                      a in holders[..r] && res.value.siblings != {} && Stale(old(State()), a, key, res.value.siblings))
      ensures res.Ok? && !sloppy && w + r > n ==>
                forall a :: a in acked && a.key == key ==>
                  Covered(res.value.siblings, a.version) && DescendsFrom(res.value.context, a.version.clock)
    {
      hide *;
      repaired := [];
      ghost var before := State();
      Unpack();
      var targets := Targets(key);
      HoldersCount(targets);
      HoldersExist(before, key);
      HoldersApart(before, key);
      var holders := Holders(targets);
      if |holders| < r {
        return QuorumFailed, [];
      }
      var answering := holders[..r];
      var found := Gather(answering, key);
      var merged := Reconcile(found);
      GatheredPositive(before, answering, key);
      ReconciledPositive(found);
      if merged != {} {
        repaired := Repair(answering, key, merged);
      }
      var context := JoinAll(merged);
      if !sloppy && w + r > n {
        forall a | a in acked && a.key == key
          ensures Covered(merged, a.version) && DescendsFrom(context, a.version.clock)
        {
          ReadCoversAck(before, key, a);
          ContextCovers(context, merged, a.version);
        }
      }
      return Ok(ReadResult(merged, context, answering)), repaired;
    }

    method Gather(answering: seq<string>, key: string) returns (found: set<Version>)
      requires forall a :: a in answering ==> a in nodes
      ensures found == AllSiblings(State(), answering, key)
    {
      found := {};
      for i := 0 to |answering|
        invariant found == AllSiblings(State(), answering[..i], key)
      {
        HeldIsSiblings(answering[i], key);
        assert answering[..i + 1] == answering[..i] + [answering[i]];
        found := found + nodes[answering[i]].Held(key);
      }
      assert answering[..|answering|] == answering;
    }

    method Repair(answering: seq<string>, key: string, merged: set<Version>) returns (repaired: seq<string>)
      requires Valid() && AllPositive(merged)
      requires Apart(answering) && forall a :: a in answering ==> a in nodes
      modifies nodes.Values
      ensures Valid()
      ensures State() == StoreAll(old(State()), answering, key, merged)
      ensures forall a :: a in repaired <==> a in answering && Stale(old(State()), a, key, merged)
    {
      hide *;
      repaired := [];
      ghost var before := State();
      StoreNone(before, answering, key, merged);
      for i := 0 to |answering|
        invariant Valid() && State() == StoreAll(before, answering[..i], key, merged)
        invariant forall a :: a in repaired <==> a in answering[..i] && Stale(before, a, key, merged)
      {
        var name := answering[i];
        StoreNext(before, answering, key, merged, i);
        var changed := StoreAt(name, key, merged);
        assert answering[..i + 1] == answering[..i] + [name];
        if changed {
          repaired := repaired + [name];
        }
      }
      assert answering[..|answering|] == answering;
    }

    /** `StorageNode.store` on one node keeps the whole cluster's invariant. */
    method StoreAt(name: string, key: string, versions: set<Version>) returns (changed: bool)
      requires Valid() && name in nodes && AllPositive(versions)
      modifies nodes[name]
      ensures Valid()
      ensures State() == old(State())[name := StoreIn(old(State())[name], key, versions)]
      ensures changed <==> Stale(old(State()), name, key, versions)
    {
      hide Sound, StoreIn, Homes;
      StoreKeepsSound(State(), name, key, versions, debts, acked);
      changed := nodes[name].Store(key, versions);
      StaleMeans(old(State())[name], key, versions);
      OnlyAt(name);
    }

    lemma StoreKeepsSound(s: Nodes, name: string, key: string, versions: set<Version>, debts: set<Debt>,
                          acked: set<Ack>)
      requires Sound(s, debts, acked) && name in s && AllPositive(versions)
      ensures Sound(s[name := StoreIn(s[name], key, versions)], debts, acked)
    {
      StoreKeepsPaid(s, name, key, versions, Homes, debts);
      StoreKeepsHints(s[name], key, versions);
      hide Stored, Paid, HintsPlaced;
    }

    /** The least clock that descends from every sibling: the context of a read. */
    method JoinAll(versions: set<Version>) returns (context: Clock)
      ensures IsJoin(context, versions)
    {
      context := map[];
      var rest := versions;
      while rest != {}
        invariant rest <= versions && IsJoin(context, versions - rest)
        decreases |rest|
      {
        var v :| v in rest;
        JoinStep(context, versions - rest, v);
        assert versions - (rest - {v}) == (versions - rest) + {v};
        context := Merge(context, v.clock);
        rest := rest - {v};
      }
      assert versions - {} == versions;
    }

    lemma HoldersApart(s: Nodes, key: string)
      requires Wired() && s.Keys == nodes.Keys
      ensures Apart(Holders(Reach(s, key)))
      ensures r <= |Reach(s, key)| ==>
                Apart(Holders(Reach(s, key))[..r]) && forall a :: a in Holders(Reach(s, key))[..r] ==> a in nodes
    {
      ReachIsSound(s, key);
      HoldersCount(Reach(s, key));
      hide Reach, Homes, Wired;
    }

    lemma GatheredPositive(s: Nodes, answering: seq<string>, key: string)
      requires exists debts, acked :: Sound(s, debts, acked)
      requires forall a :: a in answering ==> a in s
      ensures AllPositive(AllSiblings(s, answering, key))
    {
    }

    /** Strict quorums that overlap: every read sees every acknowledged write, or something newer. */
    lemma ReadCoversAck(s: Nodes, key: string, a: Ack)
      requires Wired() && Sound(s, debts, acked) && !sloppy && w + r > n
      requires a in acked && a.key == key && r <= |Reach(s, key)|
      ensures Covered(Reconcile(AllSiblings(s, Holders(Reach(s, key))[..r], key)), a.version)
      ensures Positive(a.version.clock)
    {
      var ts := Reach(s, key);
      ReachIsSound(s, key);
      HoldersCount(ts);
      HoldersApart(s, key);
      var answering := Holders(ts)[..r];
      ApartCount(answering);
      assert forall x :: x in answering ==> x in Homes(key) by {
        forall i | 0 <= i < r ensures answering[i] in Homes(key) { assert ts[i] in ts; }
      }
      var homes := set x | x in answering;
      QuorumsOverlap(Homes(key), a.homes, homes, w, r);
      var h :| h in a.homes * homes;
      var d := Debt(h, key, a.version);
      assert d in debts && Held(s, d) && h in s;
      assert Covered(Siblings(s[h], key), a.version);
      GatheredPositive(s, answering, key);
      assert Siblings(s[h], key) <= AllSiblings(s, answering, key);
      CoveredStays(Siblings(s[h], key), AllSiblings(s, answering, key), a.version);
    }

    // ------------------------------------------------------------ failure and recovery

    method Fail(name: string) returns (res: Result<()>)
      requires Valid()
      modifies nodes.Values
      ensures Valid()
      ensures name !in nodes ==> res.NotFound? && State() == old(State())
      ensures name in nodes ==> res.Ok? && State() == old(State())[name := old(State())[name].(up := false)]
    {
      if name !in nodes {
        return NotFound;
      }
      UpKeepsSound(State(), name, false, debts, acked);
      nodes[name].up := false;
      OnlyAt(name);
      return Ok(());
    }

    lemma UpKeepsSound(s: Nodes, name: string, up: bool, debts: set<Debt>, acked: set<Ack>)
      requires Sound(s, debts, acked) && name in s
      ensures SoundWhile(s[name := s[name].(up := up)], if up then Some(name) else None, debts, acked)
    {
      FailKeepsPaid(s, name, up, Homes, debts);
      hide Stored, HintsPlaced, Paid, Backed;
    }

    /** Bring `name` back. Every other node hands over the hints it kept for it and forgets its own
        copies of those keys; `name` ends up with all it had and all that was kept for it. */
    method Recover(name: string) returns (res: Result<nat>)
      requires Valid()
      modifies nodes.Values
      ensures Valid()
      ensures name !in nodes ==> res.NotFound? && State() == old(State())
      ensures name in nodes ==>
                && res == Ok(|Hinted(old(State()), name)|)
                && State()[name].up && State()[name].hints == old(State())[name].hints
                && Hinted(State(), name) == {}
                && State()[name].data.Keys == old(State())[name].data.Keys + KeysDue(old(State()), name)
                && (forall k {:trigger Siblings(State()[name], k)} ::
                      Siblings(State()[name], k) == Reconcile(Siblings(old(State())[name], k) +
                                                              HintUnion(old(State()), name, k)))
                && (forall a :: a in nodes && a != name ==>
                      State()[a] == HandedOver(old(State())[a], name, old(State())[a].hints.Keys))
    {
      hide *;
      Unpack();
      ghost var before := State();
      if name !in nodes {
        return NotFound;
      }
      Wake(name);
      var delivered := 0;
      for i := 0 to |names|
        invariant SoundWhile(State(), Some(name), debts, acked) && Handing(before, State(), name)
        invariant delivered + |Hinted(State(), name)| == |Hinted(before, name)|
        invariant forall j :: 0 <= j < i ==> Cleared(State(), names[j], name)
      {
        NameExists(i);
        var count := HandOver(name, names[i], before);
        delivered := delivered + count;
      }
      AllCleared(State(), name);
      HandingEnds(before, State(), name);
      HandingUp(before, State(), name);
      AwakeIsSound(State(), name, debts, acked);
      Repack();
      return Ok(delivered);
    }

    method Wake(name: string)
      requires Valid() && name in nodes
      modifies nodes[name]
      ensures Wired() && SoundWhile(State(), Some(name), debts, acked)
      ensures Handing(old(State()), State(), name)
      ensures Hinted(State(), name) == Hinted(old(State()), name)
    {
      hide Sound, SoundWhile, Handing, Hinted, Homes;
      ghost var before := State();
      UpKeepsSound(before, name, true, debts, acked);
      SoundIsStored(before, None, debts, acked);
      HandingStarts(before, name);
      nodes[name].up := true;
      OnlyAt(name);
      SameHinted(before, State(), name);
    }

    /** One node's turn in a recovery: deliver every hint it keeps for `name`. */
    method HandOver(name: string, other: string, ghost before: Nodes) returns (count: nat)
      requires Wired() && SoundWhile(State(), Some(name), debts, acked)
      requires name in before && Handing(before, State(), name) && name in nodes && other in nodes
      modifies nodes.Values
      ensures SoundWhile(State(), Some(name), debts, acked) && Handing(before, State(), name)
      ensures count + |Hinted(State(), name)| == |Hinted(old(State()), name)|
      ensures Cleared(State(), other, name)
      ensures forall a :: Cleared(old(State()), a, name) ==> Cleared(State(), a, name)
    {
      hide *;
      ghost var start := State();
      count := 0;
      var pending := nodes[other].hints.Keys;
      PendingStarts(other, name);
      while pending != {}
        invariant SoundWhile(State(), Some(name), debts, acked) && Handing(before, State(), name)
        invariant count + |Hinted(State(), name)| == |Hinted(start, name)|
        invariant pending <= nodes[other].hints.Keys
        invariant PendingOnly(State(), other, name, pending)
        invariant forall a :: Cleared(start, a, name) ==> Cleared(State(), a, name)
        decreases |pending|
      {
        var h :| h in pending;
        ghost var left := pending;
        pending := pending - {h};
        assert left == pending + {h} && h == (h.0, h.1);
        if h.0 != name {
          PendingSkip(State(), other, name, pending, h);
          continue;
        }
        HandOneHint(name, other, h.1, before, pending);
        count := count + 1;
      }
      PendingEnds(State(), other, name);
    }

    /** Deliver one hint. */
    method HandOneHint(name: string, other: string, key: string, ghost before: Nodes,
                       ghost pending: set<(string, string)>)
      requires Wired() && SoundWhile(State(), Some(name), debts, acked)
      requires name in before && Handing(before, State(), name) && name in nodes && other in nodes
      requires (name, key) in nodes[other].hints && (name, key) !in pending && pending <= nodes[other].hints.Keys
      requires PendingOnly(State(), other, name, pending + {(name, key)})
      modifies nodes.Values
      ensures SoundWhile(State(), Some(name), debts, acked) && Handing(before, State(), name)
      ensures 1 + |Hinted(State(), name)| == |Hinted(old(State()), name)|
      ensures pending <= nodes[other].hints.Keys && PendingOnly(State(), other, name, pending)
      ensures forall a :: Cleared(old(State()), a, name) ==> Cleared(State(), a, name)
    {
      hide *;
      ghost var now := State();
      SnapshotHints(other);
      HintAtHome(other, name, key);
      DeliverKeepsSound(now, name, other, key, debts, acked);
      HandingStep(before, now, name, other, key);
      AfterDelivery(now, name, other, key, pending);
      DeliverHint(name, other, key);
      SnapshotHints(other);
    }

    method DeliverHint(name: string, other: string, key: string)
      requires Wired() && name in nodes && other in nodes && name != other && other !in Homes(key)
      requires (name, key) in nodes[other].hints && (name, key) in State()[other].hints
      modifies nodes[name], nodes[other]
      ensures State() == Deliver(old(State()), name, other, key, false)
    {
      hide Homes, StoreIn;
      var node, keeper := nodes[name], nodes[other];
      assert node != keeper;
      ghost var before := State();
      var changed := node.Store(key, keeper.hints[(name, key)]);
      OnlyAt(name);
      label Stored:
      keeper.hints := keeper.hints - {(name, key)};
      var homes := Homes(key);
      if other !in homes {
        keeper.data := keeper.data - {key};
      }
      assert forall b :: b in nodes && b != other ==> unchanged@Stored(nodes[b]);
      assert State() == old@Stored(State())[other := keeper.Snapshot()];
    }

    lemma HintAtHome(other: string, name: string, key: string)
      requires Wired() && SoundWhile(State(), Some(name), debts, acked) && name in nodes && other in nodes
      requires (name, key) in nodes[other].hints
      ensures (name, key) in State()[other].hints && other != name && other !in Homes(key)
      ensures State().Keys == nodes.Keys
    {
      hide Homes;
      assert State()[other] == nodes[other].Snapshot();
    }

    lemma SnapshotHints(other: string)
      requires other in nodes
      ensures State()[other].hints == nodes[other].hints
    {
    }

    lemma DeliverKeepsSound(s: Nodes, name: string, other: string, key: string, debts: set<Debt>, acked: set<Ack>)
      requires Wired() && SoundWhile(s, Some(name), debts, acked) && name in s && other in s &&
               (name, key) in s[other].hints
      ensures SoundWhile(Deliver(s, name, other, key, false), Some(name), debts, acked)
    {
      DeliverIsSound(s, name, other, key, Homes, debts);
      hide Stored, HintsPlaced, Paid, Backed, Homes, Deliver;
    }

    lemma SoundIsStored(s: Nodes, waking: Option<string>, debts: set<Debt>, acked: set<Ack>)
      requires SoundWhile(s, waking, debts, acked) || (waking == None && Sound(s, debts, acked))
      ensures Stored(s) && s.Keys == nodes.Keys
    {
    }

    lemma NameExists(i: nat)
      requires Wired() && i < |names|
      ensures names[i] in nodes
    {
    }

    lemma PendingStarts(other: string, name: string)
      requires other in nodes
      ensures PendingOnly(State(), other, name, nodes[other].hints.Keys)
    {
      assert State()[other] == nodes[other].Snapshot();
    }

    lemma AllCleared(s: Nodes, name: string)
      requires Wired() && s.Keys == nodes.Keys
      requires forall j :: 0 <= j < |names| ==> Cleared(s, names[j], name)
      ensures forall a, h :: a in s && h in s[a].hints ==> h.0 != name
    {
      forall a | a in s ensures Cleared(s, a, name) {
        assert a in names;
      }
    }

    lemma AwakeIsSound(s: Nodes, name: string, debts: set<Debt>, acked: set<Ack>)
      requires SoundWhile(s, Some(name), debts, acked)
      requires forall a, h :: a in s && h in s[a].hints ==> h.0 != name
      ensures Sound(s, debts, acked)
    {
    }

    // ------------------------------------------------------------ anti-entropy

    /** The keys both nodes are home to and at least one of them holds. */
    ghost function Shared(s: Nodes, left: string, right: string): set<string>
      requires left in s && right in s
    {
      set k | k in s[left].data.Keys + s[right].data.Keys && left in Homes(k) && right in Homes(k)
    }

    /** Compare two nodes' Merkle trees and merge the keys of every bucket that differs. `render` is
        the text a node fingerprints a key's siblings by. */
    method AntiEntropy<Digest(==,!new)>(left: string, right: string, leaves: int,
                                        h: MerkleTree.Hashing<Digest>, render: set<Version> -> string)
        returns (res: Result<SyncResult>, ghost height: nat)
      requires Valid()
      modifies nodes.Values
      ensures Valid()
      ensures left !in nodes || right !in nodes ==> res.NotFound?
      ensures left in nodes && right in nodes ==>
                (res.Invalid? <==> leaves < 1 || !IsPowerOfTwo(leaves)) && (res.Invalid? || res.Ok?)
      ensures !res.Ok? ==> State() == old(State())
      ensures res.Ok? ==>
                && leaves == Pow2(height)
                && State() == SyncAll(old(State()), left, right, res.value.keysSynced)
                && res.value.keysSynced ==
                   (set k | k in Shared(old(State()), left, right) && h.bucketOf(k) % leaves in res.value.buckets)
                && ExactBuckets(old(State()), left, right, leaves, height, h, render, res.value)
    {
      hide *;
      height := 0;
      if left !in nodes || right !in nodes {
        return NotFound, 0;
      }
      Unpack();
      ghost var before := State();
      var shared := SharedKeys(left, right);
      var mine := Fingerprint(left, shared, render);
      var theirs := Fingerprint(right, shared, render);
      var found: Result<SyncResult>;
      found, height := Compare(mine, theirs, leaves, h);
      if found.Invalid? {
        return Invalid, 0;
      }
      SharedFacts(before, left, right, mine, theirs, leaves, height, h, render, found.value);
      SoundIsStored(before, None, debts, acked);
      var done := {};
      var rest := found.value.keysSynced;
      SyncNothing(before, left, right);
      while rest != {}
        invariant done + rest == found.value.keysSynced
        invariant Valid() && State() == SyncAll(before, left, right, done)
        decreases |rest|
      {
        var key :| key in rest;
        SyncKey(left, right, key, before, done);
        done, rest := done + {key}, rest - {key};
      }
      res := found;
    }

    /** Merge one key on both nodes. */
    method SyncKey(left: string, right: string, key: string, ghost before: Nodes, ghost done: set<string>)
      requires Valid() && left in nodes && right in nodes && left in before && right in before && Stored(before)
      requires State() == SyncAll(before, left, right, done)
      modifies nodes.Values
      ensures Valid()
      ensures State() == SyncAll(before, left, right, done + {key})
    {
      hide *;
      SyncStep(before, left, right, done, key);
      HeldIsSiblings(left, key);
      HeldIsSiblings(right, key);
      var merged := Reconcile(nodes[left].Held(key) + nodes[right].Held(key));
      var changed := StoreAt(left, key, merged);
      changed := StoreAt(right, key, merged);
    }

    method SharedKeys(left: string, right: string) returns (shared: set<string>)
      requires Wired() && left in nodes && right in nodes
      ensures shared == Shared(State(), left, right)
    {
      hide Homes, Wired;
      shared := set k | k in nodes[left].data.Keys + nodes[right].data.Keys && left in Homes(k) && right in Homes(k);
    }

    method Fingerprint(name: string, keys: set<string>, render: set<Version> -> string)
        returns (items: map<string, string>)
      requires name in nodes
      ensures items == FingerprintOf(State()[name], keys, render)
    {
      items := map k | k in keys && k in nodes[name].data :: render(nodes[name].data[k]);
    }

    lemma SharedFacts<Digest(!new)>(s: Nodes, left: string, right: string, mine: map<string, string>,
                                    theirs: map<string, string>,
                                    leaves: nat, height: nat, h: MerkleTree.Hashing<Digest>,
                                    render: set<Version> -> string, found: SyncResult)
      requires left in s && right in s && leaves > 0
      requires mine == FingerprintOf(s[left], Shared(s, left, right), render)
      requires theirs == FingerprintOf(s[right], Shared(s, left, right), render)
      ensures mine.Keys + theirs.Keys == Shared(s, left, right)
      ensures ExactDiff(mine, theirs, leaves, height, h, found) ==>
                ExactBuckets(s, left, right, leaves, height, h, render, found)
    {
      hide Homes;
      FingerprintsCover(s[left], s[right], Shared(s, left, right), render);
    }

    /** The diff is exact about the two nodes' fingerprints of their shared keys. */
    ghost predicate ExactBuckets<Digest(!new)>(s: Nodes, left: string, right: string, leaves: nat, height: nat,
                                               h: MerkleTree.Hashing<Digest>, render: set<Version> -> string,
                                               found: SyncResult)
      requires left in s && right in s && leaves > 0
    {
      var shared := Shared(s, left, right);
      ExactDiff(FingerprintOf(s[left], shared, render), FingerprintOf(s[right], shared, render), leaves, height, h,
                found)
    }
  }

  lemma {:induction false} PlainWriteNoHints(s: Nodes, ts: seq<Target>, key: string, version: Version)
    requires NoHints(s)
    requires forall t :: t in ts ==> t.holder == t.home
    ensures NoHints(WriteAll(s, ts, key, version))
  {
    if ts != [] {
      var k := |ts| - 1;
      var before := WriteAll(s, ts[..k], key, version);
      PlainWriteNoHints(s, ts[..k], key, version);
      assert ts[k] in ts;
      if ts[k].holder in before {
        StoreKeepsHints(before[ts[k].holder], key, {version});
      }
    }
  }

  /** `KVCluster(nodes, n, w, r, sloppy)`; `order` is the ring's clockwise walk over all the nodes. */
  method NewCluster(names: seq<string>, order: string -> seq<string>, n: int, w: int, r: int, sloppy: bool)
      returns (res: Result<KVCluster>)
    requires Apart(names) ==>
               forall key :: Apart(order(key)) && |order(key)| == |names| && forall a :: a in order(key) <==> a in names
    ensures res.Ok? || res.Invalid?
    ensures res.Ok? <==> names != [] && Apart(names) && 1 <= n <= |names| && 1 <= w <= n && 1 <= r <= n
    ensures res.Ok? ==> res.value.Valid() && res.value.acked == {} && forall a :: a in res.value.nodes <==> a in names
    ensures res.Ok? ==>
              res.value.names == names && res.value.order == order && res.value.n == n && res.value.w == w &&
                  res.value.r == r
    ensures res.Ok? ==> res.value.sloppy == sloppy
    ensures res.Ok? ==> fresh(res.value) && forall a :: a in names ==> fresh(res.value.nodes[a])
    ensures res.Ok? ==> forall a :: a in names ==> res.value.State()[a] == NodeState(true, map[], map[])
  {
    var nodes: map<string, StorageNode> := map[];
    for i := 0 to |names|
      invariant forall a :: a in nodes <==> a in names[..i]
      invariant forall j, k :: 0 <= j < k < i ==> names[j] != names[k]
      invariant forall a :: a in nodes ==> fresh(nodes[a]) && nodes[a].Snapshot() == NodeState(true, map[], map[])
      invariant forall a, b :: a in nodes && b in nodes && a != b ==> nodes[a] != nodes[b]
    {
      if names[i] in nodes {
        return Invalid;
      }
      var node := new StorageNode(names[i]);
      assert names[..i + 1] == names[..i] + [names[i]];
      nodes := nodes[names[i] := node];
    }
    assert names[..|names|] == names;
    if names == [] || !(1 <= n <= |names|) || !(1 <= w <= n) || !(1 <= r <= n) {
      return Invalid;
    }
    var cluster := new KVCluster(nodes, names, order, n, w, r, sloppy);
    return Ok(cluster);
  }

  /** After a write every node it reached holds what it held plus the new version, reconciled. */
  lemma {:induction false} WriteReaches(s: Nodes, ts: seq<Target>, key: string, version: Version, h: string, k: string)
    requires h in s && (forall i, j :: 0 <= i < j < |ts| ==> ts[i].holder != ts[j].holder)
    ensures Siblings(WriteAll(s, ts, key, version)[h], k) ==
            if k == key && h in Holders(ts) then Reconcile(Siblings(s[h], k) + {version}) else Siblings(s[h], k)
  {
    hide Reconcile, WriteTo, Siblings;
    if ts != [] {
      var i := |ts| - 1;
      WriteReaches(s, ts[..i], key, version, h, k);
      assert Holders(ts) == Holders(ts[..i]) + [ts[i].holder];
      if ts[i].holder == h {
        assert h !in Holders(ts[..i]);
        WriteToSiblings(WriteAll(s, ts[..i], key, version)[h], ts[i], key, version, k);
      }
    }
  }

  lemma WriteToSiblings(s: NodeState, target: Target, key: string, version: Version, k: string)
    ensures Siblings(WriteTo(s, target, key, version), k) ==
            if k == key then Reconcile(Siblings(s, k) + {version}) else Siblings(s, k)
  {
  }

  /** A write with the context of a read supersedes, on every node it reaches, all that the read
      returned, and is there itself unless something newer is; its coordinator has it for sure. */
  lemma WriteSupersedes(s: Nodes, ts: seq<Target>, key: string, version: Version, context: Clock, t: Target)
    requires Stored(s) && Positive(version.clock) && t in ts && t.holder in s
    requires forall i, j :: 0 <= i < j < |ts| ==> ts[i].holder != ts[j].holder
    requires forall v :: DescendsFrom(context, v) ==> Dominates(version.clock, v)
    ensures var held := Siblings(WriteAll(s, ts, key, version)[t.holder], key);
            && (forall v :: v in held ==> !DescendsFrom(context, v.clock))
            && Covered(held, version)
            && (IsNewAt(s, t.holder, key, version) ==> version in held)
  {
    WriteReaches(s, ts, key, version, t.holder, key);
    HoldersCount(ts);
    var i :| 0 <= i < |ts| && ts[i] == t;
    assert Holders(ts)[i] == t.holder;
    hide WriteAll;
    var all := Siblings(s[t.holder], key) + {version};
    ReconcileCovers(all, version);
    var held := Siblings(WriteAll(s, ts, key, version)[t.holder], key);
    assert held == Reconcile(all);
    forall v | v in held ensures !DescendsFrom(context, v.clock) {
      assert version in all && !Dominates(version.clock, v.clock);
    }
  }

  /** Read repair leaves every node that answered with exactly what the read returned. */
  lemma RepairConverges(s: Nodes, answering: seq<string>, key: string, a: string)
    requires Stored(s) && a in answering && a in s
    ensures var merged := Reconcile(AllSiblings(s, answering, key));
            Siblings(StoreAll(s, answering, key, merged)[a], key) == merged
  {
    var all, own := AllSiblings(s, answering, key), Siblings(s[a], key);
    assert own <= all && AllPositive(all) && AllPositive(own);
    ReconcileUnion(all, own);
    assert Reconcile(all) + own == own + Reconcile(all) && all + own == all;
  }

  /** `a` keeps no hint for `name`. */
  ghost predicate Cleared(s: Nodes, a: string, name: string) {
    a in s && forall h :: h in s[a].hints ==> h.0 != name
  }

  /** The hints `a` still keeps for `name` are all among `pending`. */
  ghost predicate PendingOnly(s: Nodes, a: string, name: string, pending: set<(string, string)>) {
    a in s && forall h :: h in s[a].hints && h.0 == name ==> h in pending
  }

  lemma PendingSkip(s: Nodes, a: string, name: string, pending: set<(string, string)>, h: (string, string))
    requires PendingOnly(s, a, name, pending + {h}) && h.0 != name
    ensures PendingOnly(s, a, name, pending)
  {
  }

  lemma PendingEnds(s: Nodes, a: string, name: string)
    requires PendingOnly(s, a, name, {})
    ensures Cleared(s, a, name)
  {
  }

  /** What one delivery does to the hints, in the terms of the loop around it. */
  lemma AfterDelivery(s: Nodes, name: string, other: string, key: string, pending: set<(string, string)>)
    requires name in s && other in s && (name, key) in s[other].hints && other != name
    requires PendingOnly(s, other, name, pending + {(name, key)}) && (name, key) !in pending &&
             pending <= s[other].hints.Keys
    ensures var s' := Deliver(s, name, other, key, false);
            && PendingOnly(s', other, name, pending) && pending <= s'[other].hints.Keys
            && (forall a :: Cleared(s, a, name) ==> Cleared(s', a, name))
            && 1 + |Hinted(s', name)| == |Hinted(s, name)|
  {
    var s' := Deliver(s, name, other, key, false);
    HintedAfter(s, name, other, key);
    StoreKeepsHints(s[name], key, s[other].hints[(name, key)]);
    hide StoreIn, Hinted;
    assert Hinted(s, name) == Hinted(s', name) + {(other, key)};
  }

  lemma SameHinted(s: Nodes, s': Nodes, name: string)
    requires s'.Keys == s.Keys && forall a :: a in s ==> s'[a].hints == s[a].hints
    ensures Hinted(s', name) == Hinted(s, name)
  {
  }

  lemma HandingUp(before: Nodes, s: Nodes, name: string)
    requires name in before && Handing(before, s, name)
    ensures name in s && s[name].up && s[name].hints == before[name].hints
  {
  }

  /** A node's fingerprint of some keys. */
  ghost function FingerprintOf(s: NodeState, keys: set<string>, render: set<Version> -> string): map<string, string> {
    map k | k in keys && k in s.data :: render(s.data[k])
  }

  /** Under injective digests the diff reports exactly the buckets whose texts differ, cheaply. */
  ghost predicate ExactDiff<Digest(!new)>(mine: map<string, string>, theirs: map<string, string>, leaves: nat,
                                          height: nat,
                                          h: MerkleTree.Hashing<Digest>, found: SyncResult)
    requires leaves > 0
  {
    MerkleTree.Injective(h.combine) && MerkleTree.DigestsText(h) ==>
      && found.comparisons <= 1 + 2 * height * |found.buckets|
      && forall i :: i in found.buckets <==>
           0 <= i < leaves && MerkleTree.LeafText(MerkleTree.BucketOfItems(h, mine, leaves, i)) !=
                              MerkleTree.LeafText(MerkleTree.BucketOfItems(h, theirs, leaves, i))
  }

  /** Build both trees, diff them, and name the keys of the buckets that differ. */
  method Compare<Digest(==,!new)>(mine: map<string, string>, theirs: map<string, string>, leaves: int,
                                  h: MerkleTree.Hashing<Digest>)
      returns (r: Result<SyncResult>, ghost height: nat)
    ensures r.Invalid? <==> leaves < 1 || !IsPowerOfTwo(leaves)
    ensures !r.Invalid? ==> r.Ok?
    ensures r.Ok? ==> leaves == Pow2(height) && ExactDiff(mine, theirs, leaves, height, h, r.value)
    ensures r.Ok? ==>
              r.value.keysSynced == set k | k in mine.Keys + theirs.Keys && h.bucketOf(k) % leaves in r.value.buckets
  {
    hide *;
    height := 0;
    ghost var height' := 0;
    var a, b: MerkleTree.Result<MerkleTree.Tree<Digest>>;
    a, height := MerkleTree.Build(mine, leaves, h);
    b, height' := MerkleTree.Build(theirs, leaves, h);
    if a.Invalid? || b.Invalid? {
      return Invalid, 0;
    }
    SameHeight(a.value, b.value, mine, theirs, height, height', h);
    var diff := MerkleTree.DiffTrees(a.value, b.value, h.combine, height);
    ExactAsFound(a.value, b.value, mine, theirs, height, h, diff.value);
    var keys := {};
    for i := 0 to |diff.value.buckets|
      invariant keys == set k | k in mine.Keys + theirs.Keys && h.bucketOf(k) % leaves in diff.value.buckets[..i]
    {
      var bucket := diff.value.buckets[i];
      assert bucket in diff.value.buckets;
      BucketKeys(a.value, mine, height, h, bucket);
      BucketKeys(b.value, theirs, height, h, bucket);
      assert diff.value.buckets[..i + 1] == diff.value.buckets[..i] + [bucket];
      keys := keys + a.value.buckets[bucket].Keys + b.value.buckets[bucket].Keys;
    }
    assert diff.value.buckets[..|diff.value.buckets|] == diff.value.buckets;
    return Ok(SyncResult(diff.value.buckets, diff.value.comparisons, keys)), height;
  }

  lemma SameHeight<Digest>(a: MerkleTree.Tree<Digest>, b: MerkleTree.Tree<Digest>, x: map<string, string>,
                           y: map<string, string>,
                           height: nat, height': nat, h: MerkleTree.Hashing<Digest>)
    requires MerkleTree.BuiltFrom(a, h, x, height) && MerkleTree.BuiltFrom(b, h, y, height') && a.leaves == b.leaves
    ensures height == height' && a.leaves == Pow2(height)
    ensures MerkleTree.LevelsOf(h.combine, a.levels, height) && |a.levels| == height + 1
    ensures MerkleTree.LevelsOf(h.combine, b.levels, height) && |b.levels| == height + 1
  {
    if height < height' {
      Pow2Grows(height, height');
    } else if height' < height {
      Pow2Grows(height', height);
    }
  }

  lemma ExactAsFound<Digest(!new)>(a: MerkleTree.Tree<Digest>, b: MerkleTree.Tree<Digest>, x: map<string, string>,
                                   y: map<string, string>,
                                   height: nat, h: MerkleTree.Hashing<Digest>, d: MerkleTree.Diff)
    requires MerkleTree.BuiltFrom(a, h, x, height) && MerkleTree.BuiltFrom(b, h, y, height) && a.leaves == b.leaves
    requires |a.levels[0]| == |b.levels[0]| == MerkleTree.First(height, 1)
    requires d == MerkleTree.Diff(MerkleTree.Found(a.levels[0], b.levels[0], h.combine, height, 0),
                                  MerkleTree.Cost(a.levels[0], b.levels[0], h.combine, height, 0))
    ensures a.leaves > 0 && forall i :: i in d.buckets ==> i < a.leaves
    ensures forall keys :: ExactDiff(x, y, a.leaves, height, h, SyncResult(d.buckets, d.comparisons, keys))
  {
    hide MerkleTree.LeafText, MerkleTree.Found, MerkleTree.Cost, MerkleTree.BucketOfItems;
    MerkleTree.FoundIsSorted(a.levels[0], b.levels[0], h.combine, height, 0);
    if MerkleTree.Injective(h.combine) && MerkleTree.DigestsText(h) {
      MerkleTree.DiffIsExact(a, b, h, x, y, height);
    }
  }

  lemma BucketKeys<Digest>(tree: MerkleTree.Tree<Digest>, items: map<string, string>, height: nat,
                           h: MerkleTree.Hashing<Digest>, bucket: nat)
    requires MerkleTree.BuiltFrom(tree, h, items, height) && bucket < tree.leaves
    ensures bucket < |tree.buckets| && tree.leaves > 0
    ensures tree.buckets[bucket].Keys == set k | k in items && h.bucketOf(k) % tree.leaves == bucket
  {
  }

  /** The fingerprints cover exactly the shared keys. */
  lemma FingerprintsCover(a: NodeState, b: NodeState, shared: set<string>, render: set<Version> -> string)
    requires shared <= a.data.Keys + b.data.Keys
    ensures FingerprintOf(a, shared, render).Keys + FingerprintOf(b, shared, render).Keys == shared
  {
  }

  /** When texts tell buckets apart and fingerprints tell siblings apart, anti-entropy leaves the two
      nodes with the same reconciled siblings for every key they share. */
  lemma AntiEntropyConverges<Digest(!new)>(s: Nodes, left: string, right: string, shared: set<string>, leaves: nat,
                                           height: nat,
                                           h: MerkleTree.Hashing<Digest>, render: set<Version> -> string,
                                           found: SyncResult, key: string)
    requires left in s && right in s && Stored(s) && leaves > 0
    requires shared <= s[left].data.Keys + s[right].data.Keys && key in shared
    requires MerkleTree.Injective(h.combine) && MerkleTree.DigestsText(h)
    requires ExactDiff(FingerprintOf(s[left], shared, render), FingerprintOf(s[right], shared, render), leaves, height,
                       h, found)
    requires found.keysSynced == set k | k in shared && h.bucketOf(k) % leaves in found.buckets
    requires forall a, k :: a in {left, right} && k in shared && k in s[a].data ==>
               MerkleTree.OneLine(k, render(s[a].data[k]))
    requires forall k, x, y ::
               k in s[left].data && k in s[right].data && x == s[left].data[k] && y == s[right].data[k] &&
               render(x) == render(y) ==>
                 x == y
    ensures var now := SyncAll(s, left, right, found.keysSynced);
            Siblings(now[left], key) == Siblings(now[right], key) ==
                Reconcile(Siblings(s[left], key) + Siblings(s[right], key))
  {
    hide SyncAll, Stored, Reconcile, MerkleTree.LeafText, MerkleTree.Injective, MerkleTree.DigestsText;
    SyncAgrees(s, left, right, found.keysSynced, key);
    if key !in found.keysSynced {
      var i := h.bucketOf(key) % leaves;
      var x, y := FingerprintOf(s[left], shared, render), FingerprintOf(s[right], shared, render);
      var p, q := MerkleTree.BucketOfItems(h, x, leaves, i), MerkleTree.BucketOfItems(h, y, leaves, i);
      MerkleTree.TextDeterminesBucket(p, q);
      assert key in p <==> key in x;
      assert key in q <==> key in y;
      assert p[key] == q[key];
    }
  }

  /** The two nodes' trees have different text for the bucket of this key. */
  ghost predicate TextsDiffer<Digest(!new)>(s: Nodes, left: string, right: string, shared: set<string>, leaves: nat,
                                            h: MerkleTree.Hashing<Digest>, render: set<Version> -> string, key: string)
    requires left in s && right in s && leaves > 0
  {
    var i := h.bucketOf(key) % leaves;
    MerkleTree.LeafText(MerkleTree.BucketOfItems(h, FingerprintOf(s[left], shared, render), leaves, i)) !=
    MerkleTree.LeafText(MerkleTree.BucketOfItems(h, FingerprintOf(s[right], shared, render), leaves, i))
  }

  /** Under injective digests alone: the nodes agree on a shared key afterwards exactly when they
      agreed before, or the texts they store for its bucket differ. */
  lemma AntiEntropyAgreesIff<Digest(!new)>(s: Nodes, left: string, right: string, shared: set<string>, leaves: nat,
                                           height: nat,
                                           h: MerkleTree.Hashing<Digest>, render: set<Version> -> string,
                                           found: SyncResult)
    requires left in s && right in s && Stored(s) && leaves > 0
    requires MerkleTree.Injective(h.combine) && MerkleTree.DigestsText(h)
    requires ExactDiff(FingerprintOf(s[left], shared, render), FingerprintOf(s[right], shared, render), leaves, height,
                       h, found)
    requires found.keysSynced == set k | k in shared && h.bucketOf(k) % leaves in found.buckets
    ensures var now := SyncAll(s, left, right, found.keysSynced);
            forall key :: key in shared ==>
              (Siblings(now[left], key) == Siblings(now[right], key) <==>
               Siblings(s[left], key) == Siblings(s[right], key) ||
                   TextsDiffer(s, left, right, shared, leaves, h, render, key))
  {
    hide SyncAll, Stored, Reconcile, Siblings, MerkleTree.LeafText, MerkleTree.Injective, MerkleTree.DigestsText,
        FingerprintOf, MerkleTree.BucketOfItems;
    forall key | key in shared
      ensures var now := SyncAll(s, left, right, found.keysSynced);
              Siblings(now[left], key) == Siblings(now[right], key) <==>
              Siblings(s[left], key) == Siblings(s[right], key) ||
                  TextsDiffer(s, left, right, shared, leaves, h, render, key)
    {
      SyncAgrees(s, left, right, found.keysSynced, key);
    }
  }

  /** Everything the named nodes hold for the key. */
  ghost function AllSiblings(s: Nodes, names: seq<string>, key: string): set<Version> {
    set a, v | a in names && a in s && v in Siblings(s[a], key) :: v
  }

  ghost function StoreAll(s: Nodes, names: seq<string>, key: string, versions: set<Version>): (s': Nodes)
    ensures s'.Keys == s.Keys
  {
    map a | a in s :: if a in names then StoreIn(s[a], key, versions) else s[a]
  }

  /** Storing these versions changes what the node holds for the key. */
  ghost predicate Stale(s: Nodes, a: string, key: string, versions: set<Version>) {
    a in s && (key !in s[a].data || StoreIn(s[a], key, versions).data[key] != s[a].data[key])
  }

  lemma StaleMeans(s: NodeState, key: string, versions: set<Version>)
    ensures key in StoreIn(s, key, versions).data
  {
  }

  lemma StoreNone(s: Nodes, names: seq<string>, key: string, versions: set<Version>)
    ensures StoreAll(s, names[..0], key, versions) == s
  {
  }

  lemma StoreNext(s: Nodes, names: seq<string>, key: string, versions: set<Version>, i: nat)
    requires i < |names| && Apart(names) && names[i] in s
    ensures var before := StoreAll(s, names[..i], key, versions);
            && before[names[i]] == s[names[i]]
            && before[names[i] := StoreIn(before[names[i]], key, versions)] ==
               StoreAll(s, names[..i + 1], key, versions)
            && (Stale(before, names[i], key, versions) <==> Stale(s, names[i], key, versions))
  {
    assert names[..i + 1] == names[..i] + [names[i]];
    assert names[i] !in names[..i];
  }

  /** `context` descends from every sibling and from nothing it need not. */
  ghost predicate IsJoin(context: Clock, versions: set<Version>) {
    && (forall v :: v in versions ==> DescendsFrom(context, v.clock))
    && (forall c: Clock :: (forall v :: v in versions ==> DescendsFrom(c, v.clock)) ==> DescendsFrom(c, context))
  }

  lemma JoinStep(context: Clock, versions: set<Version>, v: Version)
    requires IsJoin(context, versions)
    ensures IsJoin(Merge(context, v.clock), versions + {v})
  {
    hide DescendsFrom, Merge;
    var m := Merge(context, v.clock);
    MergeIsLeastUpperBound(context, v.clock, m);
    forall u | u in versions + {v} ensures DescendsFrom(m, u.clock) {
      if u in versions {
        DescendsIsTransitive(m, context, u.clock);
      }
    }
    forall c: Clock | forall u :: u in versions + {v} ==> DescendsFrom(c, u.clock) ensures DescendsFrom(c, m) {
      assert forall u :: u in versions ==> DescendsFrom(c, u.clock);
      assert v in versions + {v};
      MergeIsLeastUpperBound(context, v.clock, c);
    }
  }

  lemma ReconciledPositive(versions: set<Version>)
    requires AllPositive(versions)
    ensures AllPositive(Reconcile(versions))
  {
  }

  lemma ContextCovers(context: Clock, versions: set<Version>, v: Version)
    requires IsJoin(context, versions) && Covered(versions, v)
    ensures DescendsFrom(context, v.clock)
  {
    var x :| x in versions && Covers(x, v);
    DescendsIsTransitive(context, x.clock, v.clock);
  }

  ghost predicate NoHints(s: Nodes) {
    forall a :: a in s ==> s[a].hints == map[]
  }

  lemma HoldersCount(ts: seq<Target>)
    ensures |Holders(ts)| == |ts|
    ensures forall i :: 0 <= i < |ts| ==> Holders(ts)[i] == ts[i].holder
  {
  }

  lemma {:induction false} HomesCount(ts: seq<Target>)
    requires forall i, j :: 0 <= i < j < |ts| ==> ts[i].home != ts[j].home
    ensures |set t | t in ts :: t.home| == |ts|
  {
    if ts != [] {
      var k := |ts| - 1;
      HomesCount(ts[..k]);
      assert ts == ts[..k] + [ts[k]];
      assert (set t | t in ts :: t.home) == (set t | t in ts[..k] :: t.home) + {ts[k].home};
    }
  }

  /** The targets that are not their own homes, as the answer to a write lists them. */
  function StandIns(ts: seq<Target>): seq<(string, string)> {
    if ts == [] then [] else
      var t := ts[|ts| - 1];
      StandIns(ts[..|ts| - 1]) + if t.holder != t.home then [(t.holder, t.home)] else []
  }

  /** The listed home is down, and the stand-in has the version for it in a hint. */
  ghost predicate HintKept(nodes: Nodes, h: (string, string), key: string, version: Version) {
    && h.0 in nodes && h.1 in nodes && !nodes[h.1].up
    && Covered(HintsFor(nodes[h.0], h.1, key), version)
  }

  /** A write lists exactly the stand-ins it reached, each with its home. */
  lemma {:induction false} StandInsMean(ts: seq<Target>, h: (string, string))
    ensures h in StandIns(ts) <==> h.0 != h.1 && Target(h.1, h.0) in ts
  {
    if ts != [] {
      StandInsMean(ts[..|ts| - 1], h);
      assert ts == ts[..|ts| - 1] + [ts[|ts| - 1]];
    }
  }

  lemma LandedHint(nodes: Nodes, t: Target, key: string, version: Version)
    requires t.holder in nodes && t.home in nodes && !nodes[t.home].up && t.holder != t.home &&
             Landed(nodes, t, key, version)
    ensures HintKept(nodes, (t.holder, t.home), key, version)
  {
    hide Covered, HintsFor;
  }

  function Holders(ts: seq<Target>): seq<string> {
    seq(|ts|, i requires 0 <= i < |ts| => ts[i].holder)
  }

  ghost function DebtsOf(ts: seq<Target>, key: string, version: Version): set<Debt> {
    set t | t in ts :: Debt(t.home, key, version)
  }

  /** The highest counter `coordinator` has in these versions, zero for none. */
  ghost predicate IsHighest(versions: set<Version>, coordinator: string, seen: nat) {
    && (forall v :: v in versions ==> Counter(v.clock, coordinator) <= seen)
    && (seen == 0 || exists v :: v in versions && Counter(v.clock, coordinator) == seen)
  }

  /** Nothing the coordinator stores for the key is as new as this version. */
  ghost predicate IsNewAt(s: Nodes, coordinator: string, key: string, version: Version) {
    coordinator in s && forall v :: v in Siblings(s[coordinator], key) ==> !DescendsFrom(v.clock, version.clock)
  }

  lemma NewVersion(s: Nodes, coordinator: string, key: string, version: Version, context: Clock, seen: nat)
    requires coordinator in s && Positive(context) && version.clock == Increment(context, coordinator, seen)
    requires IsHighest(Siblings(s[coordinator], key), coordinator, seen)
    ensures Positive(version.clock) && IsNewAt(s, coordinator, key, version)
    ensures forall v :: DescendsFrom(context, v) ==> Dominates(version.clock, v)
  {
    forall v ensures DescendsFrom(context, v) ==> Dominates(version.clock, v) {
      IncrementIsNew(context, coordinator, seen, v);
    }
    forall v | v in Siblings(s[coordinator], key) ensures !DescendsFrom(v.clock, version.clock) {
      IncrementIsNew(context, coordinator, seen, v.clock);
    }
    IncrementIsNew(context, coordinator, seen, map[]);
  }

  lemma MoveOne(done: seq<Target>, x: Target, rest: seq<Target>)
    ensures done + ([x] + rest) == (done + [x]) + rest
  {
  }

  /** The nodes among `candidates` that are up, in order. */
  ghost function SparesOf(nodes: Nodes, candidates: seq<string>): (s: seq<string>)
    requires forall a :: a in candidates ==> a in nodes
    ensures forall a :: a in s <==> a in candidates && nodes[a].up
    ensures Apart(candidates) ==> Apart(s)
  {
    if candidates == [] then [] else
      var k := |candidates| - 1;
      assert candidates == candidates[..k] + [candidates[k]];
      SparesOf(nodes, candidates[..k]) + if nodes[candidates[k]].up then [candidates[k]] else []
  }
}
