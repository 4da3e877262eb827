/** A log-structured merge tree: write-ahead log, memtable, sorted tables, flush and compaction. */
module LsmTree {
  import opened StringOrder
  import opened SsTable
  import opened Wrappers

  /** What survives a crash. */
  datatype Disk = Disk(wal: seq<Entry>, tables: seq<SSTable>)

  datatype Source = FromMemtable | FromTable(id: nat) | Absent

  datatype ReadTrace = ReadTrace(value: Option<string>, source: Source, blockReads: nat, bloomSkips: nat)

  // ---------------------------------------------------------------- what the data means

  /** Tables are oldest first; newer ones win. */
  function Overlay(tables: seq<SSTable>): View {
    if tables == [] then map[] else
      Overlay(tables[..|tables| - 1]) + Replay(tables[|tables| - 1].entries)
  }

  /** A plain map: the keys whose newest version is a value. */
  function Live(view: View): map<string, string> {
    map k | k in view && view[k].Some? :: view[k].value
  }

  predicate HasItem(m: map<string, string>, k: string, v: string) {
    k in m && m[k] == v
  }

  /** What a tree recovered from this disk holds. */
  ghost function AfterCrash(d: Disk): View {
    Overlay(d.tables) + Replay(d.wal)
  }

  ghost predicate IdsIncrease(tables: seq<SSTable>) {
    forall i, j :: 0 <= i < j < |tables| ==> tables[i].id < tables[j].id
  }

  ghost predicate AllWellFormed(tables: seq<SSTable>, digest: string -> (nat, nat)) {
    forall i :: 0 <= i < |tables| ==> WellFormed(tables[i], digest)
  }

  lemma OverlaySnoc(tables: seq<SSTable>, t: SSTable)
    ensures Overlay(tables + [t]) == Overlay(tables) + Replay(t.entries)
  {
    assert (tables + [t])[..|tables|] == tables;
  }

  // ---------------------------------------------------------------- sorting

  /** The keys in order: `sorted(...)`. */
  method SortKeys(keys: set<string>) returns (s: seq<string>)
    ensures forall i, j :: 0 <= i < j < |s| ==> StrLess(s[i], s[j])
    ensures forall k :: k in s <==> k in keys
  {
    hide StrLess;
    s := [];
    var rest := keys;
    while rest != {}
      invariant rest <= keys
      invariant forall i, j :: 0 <= i < j < |s| ==> StrLess(s[i], s[j])
      invariant forall k :: k in s <==> k in keys && k !in rest
      decreases |rest|
    {
      var k :| k in rest;
      rest := rest - {k};
      var at := BisectRight(s, k);
      Inserted(s, at, k);
      s := s[..at] + [k] + s[at..];
    }
  }

  lemma Inserted(s: seq<string>, at: nat, k: string)
    requires forall i, j :: 0 <= i < j < |s| ==> StrLess(s[i], s[j])
    requires at <= |s| && k !in s
    requires forall i :: 0 <= i < at ==> StrLeq(s[i], k)
    requires forall i :: at <= i < |s| ==> StrLess(k, s[i])
    ensures var r := s[..at] + [k] + s[at..];
            && (forall i, j :: 0 <= i < j < |r| ==> StrLess(r[i], r[j]))
            && (forall x :: x in r <==> x in s || x == k)
  {
    forall i | 0 <= i < at ensures StrLess(s[i], k) {
      assert s[i] in s;
    }
    hide StrLess;
    InsertedSorted(s, at, k);
    KeyInserted(s, at, k);
  }

  lemma InsertedSorted(s: seq<string>, at: nat, k: string)
    requires forall i, j :: 0 <= i < j < |s| ==> StrLess(s[i], s[j])
    requires at <= |s|
    requires forall i :: 0 <= i < at ==> StrLess(s[i], k)
    requires forall i :: at <= i < |s| ==> StrLess(k, s[i])
    ensures var r := s[..at] + [k] + s[at..]; forall i, j :: 0 <= i < j < |r| ==> StrLess(r[i], r[j])
  {
    hide StrLess;
    var r := s[..at] + [k] + s[at..];
    forall i, j | 0 <= i < j < |r| ensures StrLess(r[i], r[j]) {
      assert r[i] == if i < at then s[i] else if i == at then k else s[i - 1];
      assert r[j] == if j < at then s[j] else if j == at then k else s[j - 1];
    }
  }

  lemma KeyInserted(s: seq<string>, at: nat, k: string)
    requires at <= |s|
    ensures var r := s[..at] + [k] + s[at..]; forall x :: x in r <==> x in s || x == k
  {
    assert s == s[..at] + s[at..];
  }

  /** `MemTable.sorted_entries`. */
  method SortedEntries(memtable: View) returns (entries: seq<Entry>)
    ensures SortedRun(entries) && Replay(entries) == memtable && |entries| == |memtable|
  {
    hide StrLess;
    var keys := SortKeys(memtable.Keys);
    entries := seq(|keys|, i requires 0 <=
                   i < |keys| => Entry(keys[i], if keys[i] in memtable then memtable[keys[i]] else None));
    forall k | k in memtable ensures exists i :: 0 <= i < |entries| && entries[i].key == k {
      var i :| 0 <= i < |keys| && keys[i] == k;
      assert entries[i].key == k;
    }
    RunIsMap(entries, memtable);
    Distinct(keys);
    assert (set k | k in keys) == memtable.Keys;
  }

  lemma {:induction false} Distinct(keys: seq<string>)
    requires forall i, j :: 0 <= i < j < |keys| ==> StrLess(keys[i], keys[j])
    ensures |set k | k in keys| == |keys|
  {
    hide StrLess;
    if keys != [] {
      var n := |keys| - 1;
      Distinct(keys[..n]);
      assert keys == keys[..n] + [keys[n]];
      assert (set k | k in keys) == (set k | k in keys[..n]) + {keys[n]};
      forall i | 0 <= i < n ensures keys[i] != keys[n] {
        Irreflexive(keys[n]);
      }
    }
  }

  /** A sorted run with exactly the view's entries replays to the view. */
  lemma RunIsMap(entries: seq<Entry>, view: View)
    requires SortedRun(entries)
    requires forall i :: 0 <= i < |entries| ==> entries[i].key in view && view[entries[i].key] == entries[i].value
    requires forall k :: k in view ==> exists i :: 0 <= i < |entries| && entries[i].key == k
    ensures Replay(entries) == view
  {
    hide StrLess, Replay;
    forall k ensures k in Replay(entries) <==> k in view {
      ReplayHas(entries, k);
    }
    forall k | k in view ensures Replay(entries)[k] == view[k] {
      var i :| 0 <= i < |entries| && entries[i].key == k;
      ReplayAt(entries, i);
    }
  }

  // ---------------------------------------------------------------- merging runs

  /** Runs newest first; the first one that has a key wins. */
  function Merged(runs: seq<seq<Entry>>): View {
    if runs == [] then map[] else Merged(runs[1..]) + Replay(runs[0])
  }

  /** `reversed(self._tables)`, as runs. */
  function NewestFirst(tables: seq<SSTable>): (runs: seq<seq<Entry>>)
    ensures |runs| == |tables|
    ensures forall i :: 0 <= i < |tables| ==> runs[i] == tables[|tables| - 1 - i].entries
  {
    seq(|tables|, i requires 0 <= i < |tables| => tables[|tables| - 1 - i].entries)
  }

  lemma {:induction false} MergedIsOverlay(tables: seq<SSTable>)
    ensures Merged(NewestFirst(tables)) == Overlay(tables)
  {
    if tables != [] {
      var n := |tables| - 1;
      MergedIsOverlay(tables[..n]);
      assert NewestFirst(tables)[1..] == NewestFirst(tables[..n]);
    }
  }

  lemma {:induction false} MergedSnoc(runs: seq<seq<Entry>>, run: seq<Entry>)
    ensures Merged(runs + [run]) == Replay(run) + Merged(runs)
  {
    if runs == [] {
      assert [run][1..] == [];
      assert Merged([run]) == Merged([]) + Replay(run);
    } else {
      assert (runs + [run])[1..] == runs[1..] + [run];
      MergedSnoc(runs[1..], run);
    }
  }

  ghost predicate AllSorted(runs: seq<seq<Entry>>) {
    forall i :: 0 <= i < |runs| ==> SortedRun(runs[i])
  }

  /** Every entry still to come is at or after `last`. */
  ghost predicate AllFrom(runs: seq<seq<Entry>>, last: Option<string>) {
    last.Some? ==> forall i, j :: 0 <= i < |runs| && 0 <= j < |runs[i]| ==> StrLeq(last.value, runs[i][j].key)
  }

  ghost predicate Past(last: Option<string>, k: string) {
    last.None? || StrLess(last.value, k)
  }

  /** The state of the k-way merge: `out` is final up to `last`, the rest of `runs` decides beyond it. */
  ghost predicate Merging(all: View, runs: seq<seq<Entry>>, last: Option<string>, out: seq<Entry>) {
    && AllSorted(runs) && AllFrom(runs, last)
    && (forall k :: Past(last, k) ==> Agree(Merged(runs), all, k))
    && SortedRun(out) && (forall i :: 0 <= i < |out| ==>
                            last.Some? && StrLeq(out[i].key, last.value) && out[i].value.Some?)
    && (forall k :: !Past(last, k) ==> LiveAgree(Replay(out), all, k))
  }

  ghost predicate Agree(a: View, b: View, k: string) {
    (k in a <==> k in b) && (k in a ==> a[k] == b[k])
  }

  /** `out` has the key exactly when it is live in `all`, with that value. */
  ghost predicate LiveAgree(out: View, all: View, k: string) {
    (k in out <==> k in all && all[k].Some?) && (k in out ==> out[k] == all[k])
  }

  /** The smallest head, the newest run among equals: what the merge yields next. */
  ghost predicate IsNext(runs: seq<seq<Entry>>, b: nat) {
    && b < |runs| && runs[b] != []
    && (forall i :: 0 <= i < |runs| && runs[i] != [] ==> StrLeq(runs[b][0].key, runs[i][0].key))
    && (forall i :: 0 <= i < b && runs[i] != [] ==> StrLess(runs[b][0].key, runs[i][0].key))
  }

  method NextRun(runs: seq<seq<Entry>>) returns (b: nat)
    requires exists i :: 0 <= i < |runs| && runs[i] != []
    ensures IsNext(runs, b)
  {
    hide StrLess;
    IsStrictTotalOrder();
    b := 0;
    while runs[b] == []
      invariant b < |runs| && forall i :: 0 <= i < b ==> runs[i] == []
      decreases |runs| - b
    {
      b := b + 1;
    }
    var i := b + 1;
    while i < |runs|
      invariant b < i <= |runs| && runs[b] != []
      invariant forall j :: 0 <= j < i && runs[j] != [] ==> StrLeq(runs[b][0].key, runs[j][0].key)
      invariant forall j :: 0 <= j < b && runs[j] != [] ==> StrLess(runs[b][0].key, runs[j][0].key)
    {
      if runs[i] != [] && StrLess(runs[i][0].key, runs[b][0].key) {
        b := i;
      }
      i := i + 1;
    }
  }

  /** Taking one head leaves every other key as it was. */
  lemma {:induction false} DropHead(runs: seq<seq<Entry>>, b: nat, k: string)
    requires b < |runs| && runs[b] != [] && AllSorted(runs) && k != runs[b][0].key
    ensures Agree(Merged(runs[b := runs[b][1..]]), Merged(runs), k)
  {
    hide StrLess;
    ReplayFirst(runs[b]);
    var rest := runs[b := runs[b][1..]];
    if b == 0 {
      assert rest[1..] == runs[1..];
    } else {
      assert rest[1..] == runs[1..][b - 1 := runs[b][1..]];
      assert forall i :: 0 <= i < |runs| - 1 ==> runs[1..][i] == runs[i + 1];
      DropHead(runs[1..], b - 1, k);
    }
  }

  /** The next entry is the newest version of its key. */
  lemma {:induction false} HeadWins(runs: seq<seq<Entry>>, b: nat)
    requires AllSorted(runs) && IsNext(runs, b)
    ensures var e := runs[b][0]; e.key in Merged(runs) && Merged(runs)[e.key] == e.value
  {
    hide StrLess;
    IsStrictTotalOrder();
    var e := runs[b][0];
    if b == 0 {
      ReplayAt(runs[0], 0);
    } else {
      assert runs[1..][b - 1] == runs[b];
      assert forall i :: 0 <= i < |runs| - 1 ==> runs[1..][i] == runs[i + 1];
      HeadWins(runs[1..], b - 1);
      ReplayHas(runs[0], e.key);
      if i :| 0 <= i < |runs[0]| && runs[0][i].key == e.key {
        assert false;
      }
    }
  }

  /** Nothing still to come is before the next entry. */
  lemma {:induction false} HeadIsLeast(runs: seq<seq<Entry>>, low: string, k: string)
    requires AllSorted(runs) && StrLess(k, low)
    requires forall i :: 0 <= i < |runs| && runs[i] != [] ==> StrLeq(low, runs[i][0].key)
    ensures k !in Merged(runs)
  {
    hide StrLess;
    IsStrictTotalOrder();
    if runs != [] {
      assert forall i :: 0 <= i < |runs| - 1 ==> runs[1..][i] == runs[i + 1];
      HeadIsLeast(runs[1..], low, k);
      ReplayHas(runs[0], k);
      if i :| 0 <= i < |runs[0]| && runs[0][i].key == k {
        assert false;
      }
    }
  }

  /** One turn of the merge loop: skip an older version, drop a tombstone, or emit. */
  lemma MergeStep(all: View, runs: seq<seq<Entry>>, last: Option<string>, out: seq<Entry>, b: nat, e: Entry,
                  rest: seq<seq<Entry>>)
    requires Merging(all, runs, last, out) && IsNext(runs, b)
    requires e == runs[b][0] && rest == runs[b := runs[b][1..]]
    ensures last == Some(e.key) ==> Merging(all, rest, last, out)
    ensures last != Some(e.key) ==> Merging(all, rest, Some(e.key), if e.value.None? then out else out + [e])
  {
    hide StrLess, Replay, Merged;
    StillSorted(runs, last, b, e, rest);
    forall k | k != e.key ensures Agree(Merged(rest), Merged(runs), k) {
      DropHead(runs, b, k);
    }
    if last == Some(e.key) {
      Irreflexive(e.key);
      forall k | Past(last, k) ensures Agree(Merged(rest), all, k) {
        assert Agree(Merged(rest), Merged(runs), k) && Agree(Merged(runs), all, k);
      }
    } else {
      IsStrictTotalOrder();
      assert Past(last, e.key) && Agree(Merged(runs), all, e.key);
      HeadWins(runs, b);
      var out' := if e.value.None? then out else out + [e];
      forall k | !Past(Some(e.key), k) ensures LiveAgree(Replay(out'), all, k) {
        OneMore(out, e);
        if !Past(last, k) {
          assert LiveAgree(Replay(out), all, k) && k != e.key;
        } else {
          assert Agree(Merged(runs), all, k);
          ReplayHas(out, k);
          if k != e.key {
            HeadIsLeast(runs, e.key, k);
          }
        }
      }
      forall k | Past(Some(e.key), k) ensures Agree(Merged(rest), all, k) {
        assert Past(last, k) && k != e.key;
        assert Agree(Merged(runs), all, k) && Agree(Merged(rest), Merged(runs), k);
      }
    }
  }

  lemma OneMore(out: seq<Entry>, e: Entry)
    ensures Replay(out + [e]) == Replay(out)[e.key := e.value]
  {
    assert (out + [e])[..|out|] == out;
  }

  lemma StillSorted(runs: seq<seq<Entry>>, last: Option<string>, b: nat, e: Entry, rest: seq<seq<Entry>>)
    requires AllSorted(runs) && AllFrom(runs, last) && IsNext(runs, b) && e == runs[b][0] &&
             rest == runs[b := runs[b][1..]]
    ensures AllSorted(rest) && AllFrom(rest, last) && AllFrom(rest, Some(e.key))
    ensures last.Some? ==> StrLeq(last.value, e.key)
  {
    hide StrLess;
    IsStrictTotalOrder();
    forall i, j | 0 <= i < |rest| && 0 <= j < |rest[i]| ensures StrLeq(e.key, rest[i][j].key) {
      if i == b {
        assert rest[i][j] == runs[b][j + 1];
      } else {
        assert j > 0 ==> StrLess(runs[i][0].key, runs[i][j].key);
      }
    }
    forall i, j | last.Some? && 0 <= i < |rest| && 0 <= j < |rest[i]| ensures StrLeq(last.value, rest[i][j].key) {
      assert i == b ==> rest[i][j] == runs[b][j + 1];
    }
  }

  lemma MergeStart(runs: seq<seq<Entry>>)
    requires AllSorted(runs)
    ensures Merging(Merged(runs), runs, None, [])
  {
  }

  lemma MergeEnd(all: View, runs: seq<seq<Entry>>, last: Option<string>, out: seq<Entry>)
    requires Merging(all, runs, last, out) && forall i :: 0 <= i < |runs| ==> runs[i] == []
    ensures SortedRun(out) && Replay(out) == OnlyLive(all)
  {
    hide StrLess, Replay;
    AllEmpty(runs);
    forall k ensures LiveAgree(Replay(out), all, k) {
      if Past(last, k) {
        assert Agree(Merged(runs), all, k);
        ReplayHas(out, k);
        if i :| 0 <= i < |out| && out[i].key == k {
          IsStrictTotalOrder();
          assert false;
        }
      }
    }
    forall k ensures k in Replay(out) <==> k in OnlyLive(all) {
      assert LiveAgree(Replay(out), all, k);
    }
    forall k | k in OnlyLive(all) ensures Replay(out)[k] == OnlyLive(all)[k] {
      assert LiveAgree(Replay(out), all, k);
    }
  }

  lemma {:induction false} AllEmpty(runs: seq<seq<Entry>>)
    requires forall i :: 0 <= i < |runs| ==> runs[i] == []
    ensures Merged(runs) == map[]
  {
    if runs != [] {
      AllEmpty(runs[1..]);
    }
  }

  /** The view without its tombstones. */
  function OnlyLive(view: View): View {
    map k | k in view && view[k].Some? :: view[k]
  }

  ghost function Remaining(runs: seq<seq<Entry>>): nat {
    if runs == [] then 0 else |runs[0]| + Remaining(runs[1..])
  }

  lemma {:induction false} RemainingDrops(runs: seq<seq<Entry>>, b: nat)
    requires b < |runs| && runs[b] != []
    ensures Remaining(runs[b := runs[b][1..]]) < Remaining(runs)
  {
    var rest := runs[b := runs[b][1..]];
    if b == 0 {
      assert rest[1..] == runs[1..];
    } else {
      assert rest[1..] == runs[1..][b - 1 := runs[b][1..]];
      RemainingDrops(runs[1..], b - 1);
    }
  }

  /** `heapq.merge` over the runs, newest first, keeping the first entry of each key unless it is
      a tombstone. */
  method MergeRuns(runs: seq<seq<Entry>>) returns (survivors: seq<Entry>)
    requires AllSorted(runs)
    ensures SortedRun(survivors) && Replay(survivors) == OnlyLive(Merged(runs))
  {
    hide *;
    survivors := [];
    var last: Option<string> := None;
    var rests := runs;
    MergeStart(runs);
    while exists i :: 0 <= i < |rests| && rests[i] != []
      invariant Merging(Merged(runs), rests, last, survivors)
      decreases Remaining(rests)
    {
      var b := NextRun(rests);
      IsHead(rests, b);
      var e := rests[b][0];
      MergeStep(Merged(runs), rests, last, survivors, b, e, rests[b := rests[b][1..]]);
      RemainingDrops(rests, b);
      rests := rests[b := rests[b][1..]];
      if last == Some(e.key) {
        continue;
      }
      last := Some(e.key);
      if e.value.Some? {
        survivors := survivors + [e];
      }
    }
    MergeEnd(Merged(runs), rests, last, survivors);
  }

  lemma IsHead(runs: seq<seq<Entry>>, b: nat)
    requires IsNext(runs, b)
    ensures b < |runs| && runs[b] != []
  {
  }

  // ---------------------------------------------------------------- table order

  ghost predicate DistinctIds(tables: seq<SSTable>) {
    forall i, j :: 0 <= i < j < |tables| ==> tables[i].id != tables[j].id
  }

  ghost predicate SameTables(a: seq<SSTable>, b: seq<SSTable>) {
    forall t :: t in a <==> t in b
  }

  /** `sorted(tables, key=table_id)`. */
  method SortById(tables: seq<SSTable>) returns (sorted: seq<SSTable>)
    requires DistinctIds(tables)
    ensures IdsIncrease(sorted) && SameTables(sorted, tables)
  {
    sorted := [];
    for i := 0 to |tables|
      invariant IdsIncrease(sorted) && SameTables(sorted, tables[..i])
    {
      var t := tables[i];
      var at: nat := |sorted|;
      while at > 0 && sorted[at - 1].id > t.id
        invariant at <= |sorted|
        invariant forall j :: at <= j < |sorted| ==> sorted[j].id > t.id
      {
        at := at - 1;
      }
      NotYet(tables, sorted, i);
      InsertedMembers(sorted, at, t);
      InsertTable(sorted, at, t);
      assert tables[..i + 1] == tables[..i] + [t];
      sorted := sorted[..at] + [t] + sorted[at..];
    }
    assert tables[..|tables|] == tables;
  }

  lemma NotYet(tables: seq<SSTable>, sorted: seq<SSTable>, i: nat)
    requires i < |tables| && SameTables(sorted, tables[..i]) && DistinctIds(tables)
    ensures forall j :: 0 <= j < |sorted| ==> sorted[j].id != tables[i].id
  {
    forall j | 0 <= j < |sorted| ensures sorted[j].id != tables[i].id {
      assert sorted[j] in tables[..i];
    }
  }

  lemma InsertTable(sorted: seq<SSTable>, at: nat, t: SSTable)
    requires at <= |sorted| && IdsIncrease(sorted) && forall j :: 0 <= j < |sorted| ==> sorted[j].id != t.id
    requires (forall j :: at <= j < |sorted| ==> sorted[j].id > t.id) && (at > 0 ==> sorted[at - 1].id <= t.id)
    ensures IdsIncrease(sorted[..at] + [t] + sorted[at..])
  {
    var r := sorted[..at] + [t] + sorted[at..];
    assert forall i :: 0 <= i < at ==> sorted[i].id < t.id;
    forall i, j | 0 <= i < j < |r| ensures r[i].id < r[j].id {
      assert r[i] == if i < at then sorted[i] else if i == at then t else sorted[i - 1];
      assert r[j] == if j < at then sorted[j] else if j == at then t else sorted[j - 1];
    }
  }

  lemma InsertedMembers(sorted: seq<SSTable>, at: nat, t: SSTable)
    requires at <= |sorted|
    ensures forall x :: x in sorted[..at] + [t] + sorted[at..] <==> x in sorted || x == t
  {
    assert sorted == sorted[..at] + sorted[at..];
  }

  /** Table ids fix the order, so it does not matter in which order the files are found. */
  lemma {:induction false} OrderedOnce(a: seq<SSTable>, b: seq<SSTable>)
    requires IdsIncrease(a) && IdsIncrease(b) && SameTables(a, b)
    ensures a == b
    decreases |a|
  {
    BothOrNeither(a, b);
    if a != [] {
      SameLast(a, b);
      ButLast(a);
      ButLast(b);
      hide IdsIncrease;
      var x, y := a[..|a| - 1], b[..|b| - 1];
      forall t ensures t in x <==> t in y {
        assert t in x <==> t in a && t != a[|a| - 1];
        assert t in y <==> t in b && t != b[|b| - 1];
        assert t in a <==> t in b;
      }
      OrderedOnce(a[..|a| - 1], b[..|b| - 1]);
      assert a == a[..|a| - 1] + [a[|a| - 1]] && b == b[..|b| - 1] + [b[|b| - 1]];
    }
  }

  lemma OnlyOrder(sorted: seq<SSTable>, tables: seq<SSTable>)
    requires IdsIncrease(sorted) && SameTables(sorted, tables)
    ensures forall listed :: IdsIncrease(listed) && SameTables(listed, tables) ==> listed == sorted
  {
    hide IdsIncrease;
    forall listed | IdsIncrease(listed) && SameTables(listed, tables) ensures listed == sorted {
      OrderedOnce(listed, sorted);
    }
  }

  lemma BothOrNeither(a: seq<SSTable>, b: seq<SSTable>)
    requires SameTables(a, b)
    ensures a == [] <==> b == []
  {
    assert forall t :: t in a <==> t in b;
    assert a != [] ==> a[0] in a;
    assert b != [] ==> b[0] in b;
  }

  lemma SameLast(a: seq<SSTable>, b: seq<SSTable>)
    requires IdsIncrease(a) && IdsIncrease(b) && SameTables(a, b) && a != [] && b != []
    ensures a[|a| - 1] == b[|b| - 1]
  {
    var x, y := a[|a| - 1], b[|b| - 1];
    assert x in a && y in b;
    assert x in b && y in a;
  }

  lemma ButLast(a: seq<SSTable>)
    requires IdsIncrease(a) && a != []
    ensures IdsIncrease(a[..|a| - 1])
    ensures forall t :: t in a[..|a| - 1] <==> t in a && t != a[|a| - 1]
  {
    var n := |a| - 1;
    forall t ensures t in a[..n] <==> t in a && t != a[n] {
      if t in a && t != a[n] {
        var i :| 0 <= i < |a| && a[i] == t;
        assert a[..n][i] == t;
      }
    }
  }

  // ---------------------------------------------------------------- the tree

  /** Disks a running tree can leave behind: sound tables in the order they were written. */
  ghost predicate SoundDisk(d: Disk, digest: string -> (nat, nat)) {
    AllWellFormed(d.tables, digest) && IdsIncrease(d.tables)
  }

  /** The invariant between the log, the memtable, the tables and the trace of durable states. */
  ghost predicate Sound(digest: string -> (nat, nat), wal: seq<Entry>, memtable: View, tables: seq<SSTable>,
                        nextId: nat, disks: seq<Disk>) {
    && Replay(wal) == memtable && SoundDisk(Disk(wal, tables), digest)
    && (forall t :: t in tables ==> t.id < nextId)
    && disks != [] && disks[|disks| - 1] == Disk(wal, tables)
    && forall d :: d in disks ==> SoundDisk(d, digest)
  }

  /** Appending to the log makes a write durable at once. */
  lemma LogKeeps(digest: string -> (nat, nat), wal: seq<Entry>, memtable: View, tables: seq<SSTable>, nextId: nat,
                 disks: seq<Disk>,
                 e: Entry, d: Disk)
    requires Sound(digest, wal, memtable, tables, nextId, disks) && d == Disk(wal + [e], tables)
    ensures Sound(digest, wal + [e], memtable[e.key := e.value], tables, nextId, disks + [d])
    ensures AfterCrash(d) == Overlay(tables) + memtable[e.key := e.value] ==
            (Overlay(tables) + memtable)[e.key := e.value]
  {
    hide WellFormed;
    assert (wal + [e])[..|wal|] == wal;
  }

  /** A flush at any point between its two durable steps stands for the same data. */
  lemma FlushKeeps(digest: string -> (nat, nat), wal: seq<Entry>, memtable: View, tables: seq<SSTable>, nextId: nat,
                   disks: seq<Disk>,
                   t: SSTable, d: Disk, d': Disk)
    requires Sound(digest, wal, memtable, tables, nextId, disks)
    requires t.id == nextId && WellFormed(t, digest) && Replay(t.entries) == memtable
    requires d == Disk(wal, tables + [t]) && d' == Disk([], tables + [t])
    ensures Sound(digest, [], map[], tables + [t], nextId + 1, disks + [d] + [d'])
    ensures AfterCrash(d) == AfterCrash(d') == Overlay(tables + [t]) + map[] == Overlay(tables) + memtable
  {
    hide WellFormed, Overlay;
    OverlaySnoc(tables, t);
    var view := Overlay(tables);
    assert (view + memtable) + memtable == view + memtable == (view + memtable) + map[];
  }

  /** Replacing the tables by a sound list that shows the same live data keeps the invariant. */
  lemma CompactKeeps(digest: string -> (nat, nat), wal: seq<Entry>, memtable: View, tables: seq<SSTable>, nextId: nat,
                     disks: seq<Disk>,
                     tables': seq<SSTable>, nextId': nat, d: Disk)
    requires Sound(digest, wal, memtable, tables, nextId, disks)
    requires |tables'| <= 1 && forall t :: t in tables' ==> WellFormed(t, digest) && t.id < nextId'
    requires d == Disk(wal, tables') && Overlay(tables') == OnlyLive(Overlay(tables))
    ensures Sound(digest, wal, memtable, tables', nextId', disks + [d])
    ensures Live(AfterCrash(d)) == Live(Overlay(tables') + memtable) == Live(Overlay(tables) + memtable)
  {
    hide WellFormed, Overlay;
    WithoutTombstones(Overlay(tables), memtable);
  }

  class LsmTree {
    const memtableLimit: nat
    const blockSize: int
    const digest: string -> (nat, nat)
    var wal: seq<Entry>
    var memtable: View
    var tables: seq<SSTable>  // oldest first
    var nextTableId: nat
    ghost var disks: seq<Disk>  // every durable state since the tree was opened, in order

    ghost predicate Valid()
      reads this
    {
      memtableLimit > 0 && Sound(digest, wal, memtable, tables, nextTableId, disks)
    }

    /** The newest version of every key, tombstones included. */
    ghost function Versions(): View
      reads this
    {
      Overlay(tables) + memtable
    }

    /** The plain map the tree stands for. */
    ghost function Model(): map<string, string>
      reads this
    {
      Live(Versions())
    }

    /** A crash at any of the durable states since the first `since` recovers to the present map. */
    ghost predicate CrashSafe(since: nat)
      reads this
    {
      forall i :: since <= i < |disks| ==> Live(AfterCrash(disks[i])) == Model()
    }

    /** Open a tree on what a crash left: the log is replayed, the tables are put in id order. */
    constructor Recover(wal: seq<Entry>, tables: seq<SSTable>, memtableLimit: nat, blockSize: int,
                        digest: string -> (nat, nat))
      requires memtableLimit > 0
      requires AllWellFormed(tables, digest) && DistinctIds(tables)
      ensures Valid() && this.wal == wal && SameTables(this.tables, tables) && IdsIncrease(this.tables)
      ensures this.memtableLimit == memtableLimit && this.blockSize == blockSize && this.digest == digest
      ensures nextTableId == 1 || exists j :: 0 <= j < |this.tables| && this.tables[j].id + 1 == nextTableId
      ensures Model() == Live(AfterCrash(Disk(wal, this.tables))) && disks == [Disk(wal, this.tables)]
      ensures forall listed :: IdsIncrease(listed) && SameTables(listed, tables) ==> listed == this.tables
    {
      this.memtableLimit, this.blockSize, this.digest, this.wal := memtableLimit, blockSize, digest, wal;
      var sorted := SortById(tables);
      this.tables, this.disks := sorted, [Disk(wal, sorted)];
      var next: nat := 1;
      for i := 0 to |sorted|
        invariant forall j :: 0 <= j < i ==> sorted[j].id < next
        invariant next == 1 || exists j :: 0 <= j < i && sorted[j].id + 1 == next
      {
        if sorted[i].id >= next {
          next := sorted[i].id + 1;
        }
      }
      this.nextTableId := next;
      var replayed: View := map[];
      for i := 0 to |wal|
        invariant replayed == Replay(wal[..i])
      {
        assert wal[..i + 1][..i] == wal[..i];
        replayed := replayed[wal[i].key := wal[i].value];
      }
      assert wal[..|wal|] == wal;
      this.memtable := replayed;
      SameAreWellFormed(tables, sorted, digest);
      OnlyOrder(sorted, tables);
    }

    /** Log first, then make visible, then flush a full memtable. An empty key is refused. */
    method Write(entry: Entry) returns (res: Result<()>)
      requires Valid()
      modifies this
      ensures Valid() && old(disks) <= disks
      ensures entry.key == "" ==> res.Invalid? && Versions() == old(Versions()) && disks == old(disks)
      ensures entry.key != "" ==> Versions() == old(Versions())[entry.key := entry.value]
      ensures forall i :: |old(disks)| <= i < |disks| ==> AfterCrash(disks[i]) == Versions()
      ensures entry.key != "" ==>
                var after := old(memtable)[entry.key := entry.value];
                if |after| < memtableLimit || blockSize <= 0 then
                  && memtable == after && wal == old(wal) + [entry] && tables == old(tables)
                  && (res.Ok? <==> |after| < memtableLimit)
                else
                  res.Ok? && memtable == map[] && wal == [] && |tables| == |old(tables)| + 1 && old(tables) <= tables
    {
      hide *;
      Unpack();
      if entry.key == "" {
        return Invalid;
      }
      LogKeeps(digest, wal, memtable, tables, nextTableId, disks, entry, Disk(wal + [entry], tables));
      wal := wal + [entry];
      disks := disks + [Disk(wal, tables)];
      memtable := memtable[entry.key := entry.value];
      Repack();
      if |memtable| >= memtableLimit {
        assert memtable != map[];
        var flushed := Flush();
        if flushed.Invalid? {
          return Invalid;
        }
      }
      return Ok(());
    }

    method Put(key: string, value: string) returns (res: Result<()>)
      requires Valid()
      modifies this
      ensures Valid() && old(disks) <= disks
      ensures Model() == if key == "" then old(Model()) else old(Model())[key := value]
      ensures CrashSafe(|old(disks)|)
    {
      hide StrLess, WellFormed, Overlay, AfterCrash, Valid, Live;
      LiveUpdate(Versions(), key, value);
      res := Write(Entry(key, Some(value)));
    }

    method Delete(key: string) returns (res: Result<()>)
      requires Valid()
      modifies this
      ensures Valid() && old(disks) <= disks
      ensures Model() == if key == "" then old(Model()) else old(Model()) - {key}
      ensures CrashSafe(|old(disks)|)
    {
      hide StrLess, WellFormed, Overlay, AfterCrash, Valid, Live;
      LiveDelete(Versions(), key);
      res := Write(Entry(key, None));
    }

    /** A table with the next id; refused only for the tree's own bad block size. */
    method NewTable(entries: seq<Entry>) returns (r: Result<SSTable>)
      requires entries != [] && SortedRun(entries)
      modifies this`nextTableId
      ensures r.Ok? <==> blockSize > 0
      ensures r.Ok? ==> r.value.id == old(nextTableId) && r.value.entries == entries && WellFormed(r.value, digest)
      ensures nextTableId == if r.Ok? then old(nextTableId) + 1 else old(nextTableId)
    {
      hide WellFormed;
      r := NewSSTable(entries, nextTableId, blockSize, digest);
      if r.Ok? {
        nextTableId := nextTableId + 1;
      }
    }

    /** Turn the memtable into a table. The table is durable before the log is cut, so a crash in
        between replays entries the table already has and changes nothing. */
    method Flush() returns (r: Result<Option<SSTable>>)
      requires Valid()
      modifies this
      ensures Valid() && old(disks) <= disks
      ensures Versions() == old(Versions())
      ensures forall i :: |old(disks)| <= i < |disks| ==> AfterCrash(disks[i]) == Versions()
      ensures r.Invalid? <==> old(memtable) != map[] && blockSize <= 0
      ensures old(memtable) == map[] <==> r == Ok(None)
      ensures r == Ok(None) || r.Invalid? ==>
                memtable == old(memtable) && wal == old(wal) && tables == old(tables) && disks == old(disks)
      ensures r.Ok? && r.value.Some? ==>
                && memtable == map[] && wal == [] && tables == old(tables) + [r.value.value]
                && Replay(r.value.value.entries) == old(memtable)
    {
      hide *;
      Unpack();
      if |memtable| == 0 {
        return Ok(None);
      }
      var entries := SortedEntries(memtable);
      EmptyReplay();
      var made := NewTable(entries);
      if made.Invalid? {
        Repack();
        return Invalid;
      }
      var table := made.value;
      FlushKeeps(digest, wal, memtable, tables, old(nextTableId), disks, table, Disk(wal, tables + [table]),
                 Disk([], tables + [table]));
      tables := tables + [table];
      disks := disks + [Disk(wal, tables)];
      memtable := map[];
      wal := [];
      disks := disks + [Disk(wal, tables)];
      Repack();
      return Ok(Some(table));
    }

    lemma Unpack()
      requires Valid()
      ensures memtableLimit > 0 && Sound(digest, wal, memtable, tables, nextTableId, disks)
      ensures Versions() == Overlay(tables) + memtable && Replay(wal) == memtable
    {
    }

    lemma Repack()
      requires memtableLimit > 0 && Sound(digest, wal, memtable, tables, nextTableId, disks)
      ensures Valid() && Versions() == Overlay(tables) + memtable
    {
    }

    /** Memtable first, then the tables from newest to oldest: what a plain map would answer. */
    method Lookup(key: string) returns (trace: ReadTrace)
      requires Valid()
      ensures trace.value == if key in Model() then Some(Model()[key]) else None
      ensures trace.source == FromMemtable <==> key in memtable
      ensures trace.source == Absent <==> key !in Versions()
      ensures trace.blockReads + trace.bloomSkips <= |tables|
    {
      hide StrLess, WellFormed, SortedRun, Positions, Replay, Overlay;
      if key in memtable {
        return ReadTrace(memtable[key], FromMemtable, 0, 0);
      }
      var blockReads, bloomSkips := 0, 0;
      assert tables[..|tables|] == tables;
      for i := |tables| downto 0
        invariant blockReads + bloomSkips == |tables| - i
        invariant Agree(Overlay(tables[..i]), Overlay(tables), key)
      {
        var table := tables[i];
        OverlayAt(tables, i);
        TableIsSound(i);
        var maybe := MightContain(table.bits, digest(key), BitsCount(table.entries));
        if !maybe {
          if key in Replay(table.entries) {
            NoFalseNegatives(table, key, digest);
            assert false;
          }
          bloomSkips := bloomSkips + 1;
          continue;
        }
        blockReads := blockReads + 1;
        var found := Get(table, key, digest);
        if found.Some? {
          return ReadTrace(found.value.value, FromTable(table.id), blockReads, bloomSkips);
        }
      }
      NoTables(tables);
      return ReadTrace(None, Absent, blockReads, bloomSkips);
    }

    lemma TableIsSound(i: nat)
      requires Valid() && i < |tables|
      ensures WellFormed(tables[i], digest) && BitsCount(tables[i].entries) > 0
    {
    }

    /** Merge all tables into one, newest version first, without tombstones. */
    method Compact() returns (r: Result<Option<SSTable>>)
      requires Valid()
      modifies this
      ensures Valid() && old(disks) <= disks
      ensures Model() == old(Model()) && CrashSafe(|old(disks)|)
      ensures memtable == old(memtable) && wal == old(wal)
      ensures |old(tables)| < 2 ==> r == Ok(None) && tables == old(tables)
      ensures r.Invalid? ==> blockSize <= 0 && tables == old(tables)
      ensures |old(tables)| >= 2 && r.Ok? ==> |tables| <= 1 && Overlay(tables) == OnlyLive(old(Overlay(tables)))
    {
      hide *;
      Unpack();
      ModelIs();
      if |tables| < 2 {
        NothingNew();
        return Ok(None);
      }
      RunsAreSorted();
      MergedIsOverlay(tables);
      var survivors := MergeRuns(NewestFirst(tables));
      if survivors == [] {
        EmptyReplay();
        NoTables([]);
        CompactKeeps(digest, wal, memtable, tables, nextTableId, disks, [], nextTableId, Disk(wal, []));
        tables := [];
        disks := disks + [Disk(wal, tables)];
        Repack();
        ModelIs();
        SafeAfter();
        return Ok(None);
      }
      var made := NewTable(survivors);
      if made.Invalid? {
        Repack();
        ModelIs();
        NothingNew();
        return Invalid;
      }
      OneTable(made.value);
      CompactKeeps(digest, wal, memtable, tables, old(nextTableId), disks, [made.value], nextTableId,
                   Disk(wal, [made.value]));
      tables := [made.value];
      disks := disks + [Disk(wal, tables)];
      Repack();
      ModelIs();
      SafeAfter();
      return Ok(Some(made.value));
    }

    lemma ModelIs()
      ensures Model() == Live(Overlay(tables) + memtable)
    {
    }

    lemma NothingNew()
      ensures CrashSafe(|disks|)
    {
    }

    lemma SafeAfter()
      requires disks != [] && Live(AfterCrash(disks[|disks| - 1])) == Model()
      ensures CrashSafe(|disks| - 1)
    {
    }

    lemma RunsAreSorted()
      requires Valid()
      ensures AllSorted(NewestFirst(tables))
    {
      forall i | 0 <= i < |tables| ensures SortedRun(NewestFirst(tables)[i]) {
        TableIsSound(|tables| - 1 - i);
      }
    }

    /** The live entries with `lo <= key < hi`, in key order. */
    method Scan(lo: string, hi: string) returns (found: seq<(string, string)>)
      requires Valid()
      ensures forall i, j :: 0 <= i < j < |found| ==> StrLess(found[i].0, found[j].0)
      ensures forall k, v :: (k, v) in found <==> HasItem(Model(), k, v) && StrLeq(lo, k) && StrLess(k, hi)
    {
      hide *;
      Unpack();
      var mine := SortedEntries(memtable);
      var sources := [mine] + NewestFirst(tables);
      RunsAreSorted();
      MergedIsOverlay(tables);
      AllOfIt(mine, NewestFirst(tables), Overlay(tables));
      var newest := ScanRuns(sources, lo, hi);
      found := LiveItems(newest);
      RangeOfModel(Overlay(tables) + memtable, lo, hi);
      ModelIs();
    }
  }

  /** Collect the newest entry of every key in range, newest run first. */
  method ScanRuns(sources: seq<seq<Entry>>, lo: string, hi: string) returns (newest: View)
    requires AllSorted(sources)
    ensures newest == InRange(Merged(sources), lo, hi)
  {
    hide StrLess, SortedRun, Merged, Replay, InRange;
    newest := map[];
    assert sources[..0] == [];
    AllEmpty([]);
    NoRange(lo, hi);
    for i := 0 to |sources|
      invariant newest == InRange(Merged(sources[..i]), lo, hi)
    {
      assert sources[..i + 1] == sources[..i] + [sources[i]];
      MergedSnoc(sources[..i], sources[i]);
      newest := ScanRun(newest, sources[i], lo, hi);
      SomeRange(Merged(sources[..i]), Replay(sources[i]), lo, hi);
    }
    assert sources[..|sources|] == sources;
  }

  lemma AllOfIt(mine: seq<Entry>, runs: seq<seq<Entry>>, below: View)
    requires Merged(runs) == below && SortedRun(mine)
    ensures AllSorted(runs) ==> AllSorted([mine] + runs)
    ensures Merged([mine] + runs) == below + Replay(mine)
  {
    assert ([mine] + runs)[1..] == runs;
  }

  /** The part of a view with `lo <= key < hi`. */
  ghost function InRange(view: View, lo: string, hi: string): View {
    map k | k in view && StrLeq(lo, k) && StrLess(k, hi) :: view[k]
  }

  lemma NoRange(lo: string, hi: string)
    ensures InRange(map[], lo, hi) == map[]
  {
  }

  lemma RangeOfModel(view: View, lo: string, hi: string)
    ensures forall k, v :: HasItem(Live(InRange(view, lo, hi)), k, v) <==>
              HasItem(Live(view), k, v) && StrLeq(lo, k) && StrLess(k, hi)
  {
    hide StrLess;
  }

  lemma SomeRange(above: View, below: View, lo: string, hi: string)
    ensures InRange(below + above, lo, hi) == InRange(below, lo, hi) + InRange(above, lo, hi)
  {
  }

  /** One older run: entries in range whose key is not there yet. */
  method ScanRun(newest: View, run: seq<Entry>, lo: string, hi: string) returns (r: View)
    requires SortedRun(run)
    ensures r == InRange(Replay(run), lo, hi) + newest
  {
    hide *;
    r := newest;
    NoRange(lo, hi);
    EmptyReplay();
    assert run[..0] == [];
    assert map[] + newest == newest;
    for i := 0 to |run|
      invariant r == InRange(Replay(run[..i]), lo, hi) + newest
    {
      var e := run[i];
      assert run[..i + 1] == run[..i] + [e];
      OneMore(run[..i], e);
      Twice(run, i);
      RangeStep(Replay(run[..i]), newest, e, lo, hi);
      if StrLeq(lo, e.key) && StrLess(e.key, hi) && e.key !in r {
        r := r[e.key := e.value];
      }
    }
    assert run[..|run|] == run;
  }

  lemma RangeStep(older: View, newest: View, e: Entry, lo: string, hi: string)
    requires e.key !in older
    ensures var r := InRange(older, lo, hi) + newest;
            InRange(older[e.key := e.value], lo, hi) + newest ==
            if StrLeq(lo, e.key) && StrLess(e.key, hi) && e.key !in r then r[e.key := e.value] else r
  {
    hide StrLess;
  }

  lemma Twice(run: seq<Entry>, i: nat)
    requires SortedRun(run) && i < |run|
    ensures run[i].key !in Replay(run[..i])
  {
    hide StrLess, Replay;
    ReplayHas(run[..i], run[i].key);
    Irreflexive(run[i].key);
  }

  /** `sorted` over the live items. */
  method LiveItems(newest: View) returns (items: seq<(string, string)>)
    ensures forall i, j :: 0 <= i < j < |items| ==> StrLess(items[i].0, items[j].0)
    ensures forall k, v :: (k, v) in items <==> HasItem(Live(newest), k, v)
  {
    hide StrLess;
    var live := Live(newest);
    var keys := SortKeys(live.Keys);
    items := seq(|keys|, i requires 0 <= i < |keys| => (keys[i], if keys[i] in live then live[keys[i]] else ""));
    forall k, v ensures (k, v) in items <==> k in live && live[k] == v {
      if k in live && live[k] == v {
        var i :| 0 <= i < |keys| && keys[i] == k;
        assert items[i] == (k, v);
      }
      if (k, v) in items {
        var i :| 0 <= i < |items| && items[i] == (k, v);
        assert keys[i] in keys;
      }
    }
  }

  lemma SameAreWellFormed(a: seq<SSTable>, b: seq<SSTable>, digest: string -> (nat, nat))
    requires SameTables(b, a) && AllWellFormed(a, digest)
    ensures AllWellFormed(b, digest)
  {
    hide WellFormed;
    forall i | 0 <= i < |b| ensures WellFormed(b[i], digest) {
      assert b[i] in a;
    }
  }

  lemma LiveUpdate(view: View, key: string, value: string)
    ensures Live(view[key := Some(value)]) == Live(view)[key := value]
  {
  }

  lemma LiveDelete(view: View, key: string)
    ensures Live(view[key := None]) == Live(view) - {key}
  {
  }

  lemma OneTable(t: SSTable)
    ensures Overlay([t]) == Replay(t.entries)
  {
    OverlaySnoc([], t);
    assert [] + [t] == [t];
    assert map[] + Replay(t.entries) == Replay(t.entries);
  }

  lemma OverlayAt(tables: seq<SSTable>, i: nat)
    requires i < |tables|
    ensures Overlay(tables[..i + 1]) == Overlay(tables[..i]) + Replay(tables[i].entries)
  {
    assert tables[..i + 1] == tables[..i] + [tables[i]];
    OverlaySnoc(tables[..i], tables[i]);
  }

  lemma NoTables(tables: seq<SSTable>)
    ensures Overlay(tables[..0]) == map[] && Overlay([]) == map[]
  {
  }

  lemma EmptyReplay()
    ensures Replay([]) == map[]
  {
  }

  /** Dropping tombstones from the tables changes no live key, whatever lies on top. */
  lemma WithoutTombstones(all: View, top: View)
    ensures Live(OnlyLive(all) + top) == Live(all + top)
    ensures Live(all + OnlyLive(all) + top) == Live(all + top)
  {
  }

}
