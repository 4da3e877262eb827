/** A run of the cluster after which anti-entropy overlooks a difference. */
module KvCollision {
  import opened Versions
  import opened KvState
  import opened KvCluster
  import opened Powers
  import MerkleTree
  import opened Wrappers

  /** What a node prints for one version, `clock` being the printed form of its clock. */
  function VersionText(v: Version, clock: string): string {
    (if v.value.Some? then v.value.value else "None") + "@" + clock
  }

  const NAMES: seq<string> := ["C", "A", "B", "S"]

  /** What matters of a four-node cluster: who is up, what A, B and the stand-in S hold for the
      one key in use, and whether S keeps a hint for C. */
  ghost predicate Looks(s: Nodes, key: string, up: set<string>, a: set<Version>, b: set<Version>, x: set<Version>,
                        hinted: bool) {
    && s.Keys == {"C", "A", "B", "S"} && (forall n :: n in s ==> (s[n].up <==> n in up))
    && Only(s["A"], key, a) && Only(s["B"], key, b) && Only(s["S"], key, x)
    && s["C"].hints == s["A"].hints == s["B"].hints == map[]
    && s["S"].hints.Keys == if hinted then {("C", key)} else {}
  }

  ghost predicate Only(s: NodeState, key: string, versions: set<Version>) {
    s.data.Keys <= {key} && Siblings(s, key) == versions
  }

  lemma FailLooks(s: Nodes, key: string, up: set<string>, a: set<Version>, b: set<Version>, x: set<Version>,
                  hinted: bool, name: string)
    requires Looks(s, key, up, a, b, x, hinted) && name in s
    ensures Looks(s[name := s[name].(up := false)], key, up - {name}, a, b, x, hinted)
  {
  }

  /** With C down, S takes C's write and hints it; the one home that is up takes its own. */
  lemma Reached(s: Nodes, key: string, up: set<string>, direct: string)
    requires s.Keys == {"C", "A", "B", "S"} && (forall n :: n in s ==> (s[n].up <==> n in up))
    requires direct in {"A", "B"} && up == {direct, "S"}
    ensures TargetsOf(s, ["C", "A", "B"], SparesOf(s, ["S"]), true) == [Target("C", "S"), Target(direct, direct)]
  {
    var homes := ["C", "A", "B"];
    assert homes[1..] == ["A", "B"] && ["A", "B"][1..] == ["B"] && ["B"][1..] == [];
    assert ["S"][..0] == [] && SparesOf(s, []) == [] && SparesOf(s, ["S"]) == ["S"] && ["S"][1..] == [];
    assert TargetsOf(s, [], [], true) == [];
    if direct == "A" {
      assert TargetsOf(s, ["B"], [], true) == [];
      assert TargetsOf(s, ["A", "B"], [], true) == [Target("A", "A")];
    } else {
      assert TargetsOf(s, ["B"], [], true) == [Target("B", "B")];
      assert TargetsOf(s, ["A", "B"], [], true) == [Target("B", "B")];
    }
  }

  lemma WriteLooks(s: Nodes, key: string, up: set<string>, a: set<Version>, b: set<Version>, direct: string, v: Version)
    requires Looks(s, key, up, a, b, {}, false) && direct in {"A", "B"} && (if direct == "A" then a else b) == {}
    ensures var s' := WriteAll(s, [Target("C", "S"), Target(direct, direct)], key, v);
            Looks(s', key, up, if direct == "A" then {v} else a, if direct == "B" then {v} else b, {v}, true)
  {
    hide *;
    assert "S" in s && direct in s && Only(s["S"], key, {}) && Only(s[direct], key, {}) by {
      LooksAt(s, key, up, a, b, direct);
    }
    WriteTwo(s, key, direct, v);
    StoresOne(s["S"], key, v);
    StoresOne(s[direct], key, v);
    HintsOne(StoreIn(s["S"], key, {v}), key, v);
    TwoStored(s, key, up, a, b, direct, v, HintIn(StoreIn(s["S"], key, {v}), "C", key, v),
              StoreIn(s[direct], key, {v}));
  }

  lemma LooksAt(s: Nodes, key: string, up: set<string>, a: set<Version>, b: set<Version>, direct: string)
    requires Looks(s, key, up, a, b, {}, false) && direct in {"A", "B"} && (if direct == "A" then a else b) == {}
    ensures "S" in s && direct in s && Only(s["S"], key, {}) && Only(s[direct], key, {})
  {
    hide Only;
  }

  lemma HintsOne(s: NodeState, key: string, v: Version)
    requires Only(s, key, {v})
    ensures var r := HintIn(s, "C", key, v);
            Only(r, key, {v}) && r.up == s.up && r.hints.Keys == s.hints.Keys + {("C", key)}
  {
    hide Reconcile;
  }

  lemma TwoStored(s: Nodes, key: string, up: set<string>, a: set<Version>, b: set<Version>, direct: string, v: Version,
                  standIn: NodeState, home: NodeState)
    requires Looks(s, key, up, a, b, {}, false) && direct in {"A", "B"}
    requires Only(standIn, key, {v}) && standIn.up == s["S"].up &&
             standIn.hints.Keys == s["S"].hints.Keys + {("C", key)}
    requires Only(home, key, {v}) && home.up == s[direct].up && home.hints == s[direct].hints
    ensures Looks(s["S" := standIn][direct := home], key, up, if direct == "A" then {v} else a,
                  if direct == "B" then {v} else b, {v}, true)
  {
    hide Only;
  }

  lemma WriteTwo(s: Nodes, key: string, direct: string, v: Version)
    requires "S" in s && direct in s && direct != "S" && direct != "C"
    ensures WriteAll(s, [Target("C", "S"), Target(direct, direct)], key, v) ==
            s["S" := HintIn(StoreIn(s["S"], key, {v}), "C", key, v)][direct := StoreIn(s[direct], key, {v})]
  {
    var first, second := Target("C", "S"), Target(direct, direct);
    assert [first, second][..1] == [first] && [first][..0] == [];
    hide StoreIn, HintIn;
    WriteNone(s, key, v);
    WriteLast(s, [first], key, v, s);
    hide WriteAll;
    WriteLast(s, [first, second], key, v, s["S" := WriteTo(s["S"], first, key, v)]);
  }

  lemma StoresOne(s: NodeState, key: string, v: Version)
    requires Only(s, key, {})
    ensures Only(StoreIn(s, key, {v}), key, {v})
    ensures StoreIn(s, key, {v}).hints == s.hints && StoreIn(s, key, {v}).up == s.up
  {
    OneVersion(v);
    assert {} + {v} == {v};
    hide Reconcile;
  }

  lemma OneVersion(v: Version)
    ensures Reconcile({v}) == {v}
  {
  }

  /** C comes back: S hands its hint over and forgets its own copy. */
  lemma RecoverCLooks(s: Nodes, s': Nodes, key: string, up: set<string>, a: set<Version>, b: set<Version>,
                      x: set<Version>)
    requires Looks(s, key, up, a, b, x, true) && s'.Keys == s.Keys
    requires s'["C"].up && s'["C"].hints == s["C"].hints
    requires forall n :: n in s && n != "C" ==> s'[n] == HandedOver(s[n], "C", s[n].hints.Keys)
    ensures Looks(s', key, up + {"C"}, a, b, {}, false)
  {
    forall n | n in {"A", "B"} ensures s'[n] == s[n] {
      HandNothing(s[n], "C");
      assert s[n].hints.Keys == {};
    }
    var gone := s["S"].hints.Keys;
    assert gone == {("C", key)};
    assert (set h | h in gone && h.0 == "C") == {("C", key)};
    assert (set h | h in gone && h.0 == "C" :: h.1) == {key} by {
      assert ("C", key) in gone && ("C", key).1 == key;
    }
  }

  /** A home nobody keeps hints for comes back with what it had. */
  lemma RecoverHomeLooks(s: Nodes, s': Nodes, key: string, up: set<string>, a: set<Version>, b: set<Version>,
                         name: string)
    requires Looks(s, key, up, a, b, {}, false) && s'.Keys == s.Keys && name in {"A", "B"}
    requires Reconcile(a) == a && Reconcile(b) == b
    requires s'[name].up && s'[name].hints == s[name].hints
    requires forall k {:trigger Siblings(s'[name], k)} ::
               Siblings(s'[name], k) == Reconcile(Siblings(s[name], k) + HintUnion(s, name, k))
    requires s'[name].data.Keys == s[name].data.Keys + KeysDue(s, name)
    requires forall n :: n in s && n != name ==> s'[n] == HandedOver(s[n], name, s[n].hints.Keys)
    ensures Looks(s', key, up + {name}, a, b, {}, false)
  {
    hide *;
    NothingHinted(s, key, up, a, b, name);
    assert Siblings(s[name], key) + {} == Siblings(s[name], key);
    assert forall n :: n in s && n != name ==> s'[n] == s[n];
    BackWithNothing(s, s', key, up, a, b, name);
  }

  lemma NothingHinted(s: Nodes, key: string, up: set<string>, a: set<Version>, b: set<Version>, name: string)
    requires Looks(s, key, up, a, b, {}, false)
    ensures HintUnion(s, name, key) == {} && KeysDue(s, name) == {} && "A" in s && "B" in s
    ensures forall n :: n in s ==> HandedOver(s[n], name, s[n].hints.Keys) == s[n]
  {
    forall n | n in s ensures s[n].hints.Keys == {} && HandedOver(s[n], name, s[n].hints.Keys) == s[n] {
      HandNothing(s[n], name);
    }
    hide HandedOver, Looks;
  }

  lemma BackWithNothing(s: Nodes, s': Nodes, key: string, up: set<string>, a: set<Version>, b: set<Version>,
                        name: string)
    requires Looks(s, key, up, a, b, {}, false) && s'.Keys == s.Keys && name in {"A", "B"}
    requires Reconcile(a) == a && Reconcile(b) == b
    requires name in s && s'[name].up && s'[name].hints == s[name].hints && s'[name].data.Keys == s[name].data.Keys
    requires Siblings(s'[name], key) == Reconcile(Siblings(s[name], key))
    requires forall n :: n in s && n != name ==> s'[n] == s[n]
    ensures Looks(s', key, up + {name}, a, b, {}, false)
  {
    hide Reconcile, Siblings;
  }

  /** Equal fingerprints: nothing is synced. */
  lemma NothingSynced<Digest(!new)>(s: Nodes, key: string, up: set<string>, a: set<Version>, b: set<Version>,
                                    shared: set<string>, leaves: nat,
                                    height: nat, h: MerkleTree.Hashing<Digest>, render: set<Version> -> string,
                                    found: SyncResult)
    requires Looks(s, key, up, a, b, {}, false) && leaves > 0 && a != {} && b != {} && render(a) == render(b)
    requires MerkleTree.Injective(h.combine) && MerkleTree.DigestsText(h)
    requires ExactDiff(FingerprintOf(s["A"], shared, render), FingerprintOf(s["B"], shared, render), leaves, height, h,
                       found)
    requires found.keysSynced == set k | k in shared && h.bucketOf(k) % leaves in found.buckets
    ensures SyncAll(s, "A", "B", found.keysSynced) == s
  {
    assert s["A"].data.Keys == {key} == s["B"].data.Keys;
    assert FingerprintOf(s["A"], shared, render) == FingerprintOf(s["B"], shared, render);
    hide MerkleTree.LeafText, MerkleTree.Injective, MerkleTree.DigestsText, FingerprintOf, MerkleTree.BucketOfItems;
    assert forall i :: i !in found.buckets;
    assert found.keysSynced == {};
    SyncNothing(s, "A", "B");
  }

  // ---------------------------------------------------------------- the run

  ghost predicate Ours(c: KVCluster) {
    c.names == NAMES && c.n == 3 && c.w == 2 && c.r == 2 && c.sloppy && forall key :: c.order(key) == NAMES
  }

  lemma OurHomes(c: KVCluster, s: Nodes, key: string)
    requires Ours(c) && c.Wired() && s.Keys == c.nodes.Keys
    ensures c.Homes(key) == ["C", "A", "B"] && forall h :: h in c.Homes(key) ==> h in s
    ensures forall a :: a in NAMES[3..] ==> a in s
    ensures c.Reach(s, key) == TargetsOf(s, ["C", "A", "B"], SparesOf(s, ["S"]), true)
  {
    assert NAMES[..3] == ["C", "A", "B"] && NAMES[3..] == ["S"];
    hide TargetsOf, SparesOf;
  }

  lemma OurWrite(c: KVCluster, s: Nodes, key: string, up: set<string>, a: set<Version>, b: set<Version>, direct: string)
    requires Ours(c) && c.Wired() && s.Keys == c.nodes.Keys
    requires Looks(s, key, up, a, b, {}, false) && direct in {"A", "B"} && up == {direct, "S"}
    ensures c.Reach(s, key) == [Target("C", "S"), Target(direct, direct)] && Holders(c.Reach(s, key)) == ["S", direct]
    ensures "S" in s && Siblings(s["S"], key) == {}
  {
    OurHomes(c, s, key);
    Reached(s, key, up, direct);
    hide *;
    assert Holders([Target("C", "S"), Target(direct, direct)]) == ["S", direct] by {
      HoldersCount([Target("C", "S"), Target(direct, direct)]);
    }
    LooksEmpty(s, key, up, a, b);
  }

  lemma LooksEmpty(s: Nodes, key: string, up: set<string>, a: set<Version>, b: set<Version>)
    requires Looks(s, key, up, a, b, {}, false)
    ensures "S" in s && Siblings(s["S"], key) == {}
  {
  }

  lemma FirstClock(clock: Clock, seen: nat)
    requires IsHighest({}, "S", seen) && clock == Increment(map[], "S", seen)
    ensures clock == map["S" := 1]
  {
  }

  method TakeDown(c: KVCluster, name: string, key: string, ghost up: set<string>, ghost a: set<Version>,
                  ghost b: set<Version>,
                  ghost x: set<Version>, ghost hinted: bool)
    requires c.Valid() && Looks(c.State(), key, up, a, b, x, hinted) && name in {"C", "A", "B"}
    modifies c.nodes.Values
    ensures c.Valid() && Looks(c.State(), key, up - {name}, a, b, x, hinted)
  {
    ghost var s := c.State();
    assert name in s;
    FailLooks(s, key, up, a, b, x, hinted, name);
    hide *;
    var done := c.Fail(name);
  }

  method WriteThroughS(c: KVCluster, key: string, value: Option<string>, direct: string, ghost up: set<string>,
                       ghost a: set<Version>, ghost b: set<Version>) returns (v: Version)
    requires c.Valid() && Ours(c) && Looks(c.State(), key, up, a, b, {}, false)
    requires direct in {"A", "B"} && up == {direct, "S"} && (if direct == "A" then a else b) == {}
    modifies c, c.nodes.Values
    ensures c.Valid() && v == Version(value, map["S" := 1])
    ensures Looks(c.State(), key, up, if direct == "A" then {v} else a, if direct == "B" then {v} else b, {v}, true)
  {
    ghost var s := c.State();
    assert c.w == 2;
    NothingIsPositive();
    hide *;
    c.Unpack();
    OurWrite(c, s, key, up, a, b, direct);
    var done;
    done, v := c.Put(key, value, map[], Some("S"));
    ghost var seen: nat :| IsHighest(Siblings(s["S"], key), "S", seen) && v.clock == Increment(map[], "S", seen);
    FirstClock(v.clock, seen);
    WriteLooks(s, key, up, a, b, direct, v);
  }

  lemma NothingIsPositive()
    ensures Positive(map[])
  {
  }

  method BringBackC(c: KVCluster, key: string, ghost up: set<string>, ghost a: set<Version>, ghost b: set<Version>,
                    ghost x: set<Version>)
    requires c.Valid() && Looks(c.State(), key, up, a, b, x, true)
    modifies c.nodes.Values
    ensures c.Valid() && Looks(c.State(), key, up + {"C"}, a, b, {}, false)
  {
    ghost var s := c.State();
    assert "C" in s;
    hide *;
    var done := c.Recover("C");
    RecoverCLooks(s, c.State(), key, up, a, b, x);
  }

  method BringBack(c: KVCluster, name: string, key: string, ghost up: set<string>, ghost a: set<Version>,
                   ghost b: set<Version>)
    requires c.Valid() && Looks(c.State(), key, up, a, b, {}, false) && name in {"A", "B"}
    requires Reconcile(a) == a && Reconcile(b) == b
    modifies c.nodes.Values
    ensures c.Valid() && Looks(c.State(), key, up + {name}, a, b, {}, false)
  {
    ghost var s := c.State();
    assert name in s;
    hide *;
    var done := c.Recover(name);
    RecoverHomeLooks(s, c.State(), key, up, a, b, name);
  }

  method Start(key: string) returns (c: KVCluster)
    ensures c.Valid() && Ours(c) && fresh(c) && fresh(c.nodes.Values)
    ensures Looks(c.State(), key, {"C", "A", "B", "S"}, {}, {}, {}, false)
  {
    hide *;
    var order: string -> seq<string> := _ => NAMES;
    NamesApart(order);
    var made := NewCluster(NAMES, order, 3, 2, 2, true);
    c := made.value;
    OursIs(c, order);
    c.Unpack();
    StartLooks(c.State(), key);
  }

  lemma NamesApart(order: string -> seq<string>)
    requires forall key :: order(key) == NAMES
    ensures Apart(NAMES) && |NAMES| == 4 && NAMES != []
    ensures forall key :: Apart(order(key)) && |order(key)| == |NAMES| && forall a :: a in order(key) <==> a in NAMES
  {
  }

  lemma OursIs(c: KVCluster, order: string -> seq<string>)
    requires c.names == NAMES && c.n == 3 && c.w == 2 && c.r == 2 && c.sloppy && c.order == order &&
             forall key :: order(key) == NAMES
    ensures Ours(c)
  {
  }

  lemma StartLooks(s: Nodes, key: string)
    requires (forall a :: a in s <==> a in NAMES) && forall a :: a in NAMES ==> s[a] == NodeState(true, map[], map[])
    ensures Looks(s, key, {"C", "A", "B", "S"}, {}, {}, {}, false)
  {
    assert s.Keys == {"C", "A", "B", "S"};
  }

  /** C and B are down; a delete goes through S, to A and into a hint for C. C and B come back: S
      hands the hint over and forgets its copy, and with it that it ever counted. */
  method DeleteOnA(c: KVCluster, key: string) returns (gone: Version)
    requires c.Valid() && Ours(c) && Looks(c.State(), key, {"C", "A", "B", "S"}, {}, {}, {}, false)
    modifies c, c.nodes.Values
    ensures c.Valid() && gone == Version(None, map["S" := 1])
    ensures Looks(c.State(), key, {"C", "A", "B", "S"}, {gone}, {}, {}, false)
  {
    hide *;
    var all := {"C", "A", "B", "S"};
    TakeDown(c, "C", key, all, {}, {}, {}, false);
    TakeDown(c, "B", key, all - {"C"}, {}, {}, {}, false);
    assert all - {"C"} - {"B"} == {"A", "S"};
    gone := WriteThroughS(c, key, None, "A", {"A", "S"}, {}, {});
    OneVersion(gone);
    NoVersion();
    BringBackC(c, key, {"A", "S"}, {gone}, {}, {gone});
    BringBack(c, "B", key, {"A", "S"} + {"C"}, {gone}, {});
    assert {"A", "S"} + {"C"} + {"B"} == all;
  }

  /** C and A are down; the value "None" goes through S under the same clock, to B and into a hint
      for C. All come back. */
  method ValueOnB(c: KVCluster, key: string, ghost gone: Version) returns (kept: Version)
    requires c.Valid() && Ours(c) && Looks(c.State(), key, {"C", "A", "B", "S"}, {gone}, {}, {}, false)
    modifies c, c.nodes.Values
    ensures c.Valid() && kept == Version(Some("None"), map["S" := 1])
    ensures Looks(c.State(), key, {"C", "A", "B", "S"}, {gone}, {kept}, {}, false)
  {
    hide *;
    var all := {"C", "A", "B", "S"};
    TakeDown(c, "C", key, all, {gone}, {}, {}, false);
    TakeDown(c, "A", key, all - {"C"}, {gone}, {}, {}, false);
    assert all - {"C"} - {"A"} == {"B", "S"};
    kept := WriteThroughS(c, key, Some("None"), "B", {"B", "S"}, {gone}, {});
    OneVersion(gone);
    OneVersion(kept);
    BringBackC(c, key, {"B", "S"}, {gone}, {kept}, {kept});
    BringBack(c, "A", key, {"B", "S"} + {"C"}, {gone}, {kept});
    assert {"B", "S"} + {"C"} + {"A"} == all;
  }

  /** Three homes C, A, B and a stand-in S, replication 3, W = R = 2: a run that leaves A with a
      tombstone and B with the value "None" under one clock, every node up and every hint handed
      over. Both print alike, anti-entropy finds nothing to do, and the two homes stay different,
      under digests as good as one likes. */
  method AntiEntropyOverlooks<Digest(==,!new)>(key: string, leaves: int, h: MerkleTree.Hashing<Digest>,
                                               render: set<Version> -> string, ghost clockText: Clock -> string)
      returns (c: KVCluster, synced: Result<SyncResult>)
    requires leaves >= 1 && IsPowerOfTwo(leaves) && MerkleTree.Injective(h.combine) && MerkleTree.DigestsText(h)
    requires forall v: Version :: render({v}) == VersionText(v, clockText(v.clock))
    ensures c.Valid() && c.Wired() && "A" in c.State() && "B" in c.State() && synced.Ok?
    ensures forall a :: a in c.State() ==> c.State()[a].up
    ensures key in c.Shared(c.State(), "A", "B")
    ensures Siblings(c.State()["A"], key) != Siblings(c.State()["B"], key)
  {
    hide *;
    c := Start(key);
    var gone := DeleteOnA(c, key);
    var kept := ValueOnB(c, key, gone);
    PrintAlike(gone, kept, clockText, render);
    synced := Overlook(c, key, leaves, h, render, gone, kept);
  }

  method Overlook<Digest(==,!new)>(c: KVCluster, key: string, leaves: int, h: MerkleTree.Hashing<Digest>,
                                   render: set<Version> -> string, ghost gone: Version, ghost kept: Version)
      returns (synced: Result<SyncResult>)
    requires leaves >= 1 && IsPowerOfTwo(leaves) && MerkleTree.Injective(h.combine) && MerkleTree.DigestsText(h)
    requires c.Valid() && Ours(c) && Looks(c.State(), key, {"C", "A", "B", "S"}, {gone}, {kept}, {}, false)
    requires render({gone}) == render({kept}) && gone != kept
    modifies c.nodes.Values
    ensures c.Valid() && c.Wired() && "A" in c.State() && "B" in c.State() && synced.Ok?
    ensures forall a :: a in c.State() ==> c.State()[a].up
    ensures key in c.Shared(c.State(), "A", "B")
    ensures Siblings(c.State()["A"], key) != Siblings(c.State()["B"], key)
  {
    hide *;
    ghost var s, all := c.State(), {"C", "A", "B", "S"};
    BothNodes(c, s, key, all, {gone}, {kept});
    c.Unpack();
    ghost var height;
    synced, height := c.AntiEntropy("A", "B", leaves, h, render);
    Untouched(c, s, key, all, {gone}, {kept}, leaves, height, h, render, synced.value);
    StillDifferent(c, s, key, all, gone, kept);
  }

  lemma NoVersion()
    ensures Reconcile({}) == {}
  {
  }

  /** A tombstone prints like the value "None". */
  lemma PrintAlike(gone: Version, kept: Version, clockText: Clock -> string, render: set<Version> -> string)
    requires forall v: Version :: render({v}) == VersionText(v, clockText(v.clock))
    requires gone.value == None && kept.value == Some("None") && gone.clock == kept.clock
    ensures render({gone}) == render({kept}) && gone != kept
  {
  }

  lemma BothNodes(c: KVCluster, s: Nodes, key: string, up: set<string>, a: set<Version>, b: set<Version>)
    requires c.Valid() && s == c.State() && Looks(s, key, up, a, b, {}, false)
    ensures "A" in c.nodes && "B" in c.nodes && "A" in s && "B" in s
  {
  }

  lemma Untouched<Digest(!new)>(c: KVCluster, s: Nodes, key: string, up: set<string>, a: set<Version>, b: set<Version>,
                                leaves: nat,
                                height: nat, h: MerkleTree.Hashing<Digest>, render: set<Version> -> string,
                                found: SyncResult)
    requires Looks(s, key, up, a, b, {}, false) && leaves > 0 && a != {} && b != {} && render(a) == render(b)
    requires MerkleTree.Injective(h.combine) && MerkleTree.DigestsText(h)
    requires c.ExactBuckets(s, "A", "B", leaves, height, h, render, found)
    requires found.keysSynced == set k | k in c.Shared(s, "A", "B") && h.bucketOf(k) % leaves in found.buckets
    ensures SyncAll(s, "A", "B", found.keysSynced) == s
  {
    var shared := c.Shared(s, "A", "B");
    hide Looks, ExactDiff, SyncAll, MerkleTree.Injective, MerkleTree.DigestsText;
    NothingSynced(s, key, up, a, b, shared, leaves, height, h, render, found);
  }

  lemma StillDifferent(c: KVCluster, s: Nodes, key: string, up: set<string>, gone: Version, kept: Version)
    requires c.Wired() && Ours(c) && s.Keys == c.nodes.Keys && gone != kept
    requires Looks(s, key, up, {gone}, {kept}, {}, false) && up == {"C", "A", "B", "S"}
    ensures "A" in s && "B" in s && (forall a :: a in s ==> s[a].up) && key in c.Shared(s, "A", "B")
    ensures Siblings(s["A"], key) != Siblings(s["B"], key)
  {
    OurHomes(c, s, key);
    assert gone in {gone} && gone !in {kept};
    assert Siblings(s["A"], key) == {gone};
    hide TargetsOf, SparesOf;
  }
}
