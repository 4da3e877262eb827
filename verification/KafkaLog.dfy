/** One partition: an append-only log with gaps, its compaction and its retention. */
module KafkaLog {
  import opened Wrappers

  /** A `None` value is a tombstone. */
  datatype Record = Record(offset: nat, key: Option<string>, value: Option<string>, timestamp: int)

  datatype Log = Log(records: seq<Record>, end: nat, start: nat)

  /** Offsets rise, and lie between the log start and the end. */
  ghost predicate LogOk(l: Log) {
    && Rising(l.records) && l.start <= l.end
    && forall i :: 0 <= i < |l.records| ==> l.start <= l.records[i].offset < l.end
  }

  ghost predicate Rising(records: seq<Record>) {
    forall i, j :: 0 <= i < j < |records| ==> records[i].offset < records[j].offset
  }

  /** How many records lie below an offset: where `bisect_left` lands. */
  function Below(records: seq<Record>, offset: int): (n: nat)
    ensures n <= |records|
  {
    if records == [] || records[0].offset >= offset then 0 else 1 + Below(records[1..], offset)
  }

  /** The records at or above an offset. */
  function From(records: seq<Record>, offset: int): seq<Record> {
    records[Below(records, offset)..]
  }

  function FirstN<T>(s: seq<T>, n: nat): seq<T> {
    if n <= |s| then s[..n] else s
  }

  lemma {:induction false} BelowIsUnique(records: seq<Record>, offset: int, at: nat)
    requires at <= |records| && forall i :: 0 <= i < at ==> records[i].offset < offset
    requires at < |records| ==> records[at].offset >= offset
    ensures Below(records, offset) == at
  {
    if at > 0 {
      BelowIsUnique(records[1..], offset, at - 1);
    }
  }

  lemma {:induction false} BelowSplits(records: seq<Record>, offset: int)
    requires Rising(records)
    ensures forall i :: 0 <= i < |records| ==> (records[i].offset < offset <==> i < Below(records, offset))
  {
    if records != [] && records[0].offset < offset {
      BelowSplits(records[1..], offset);
      assert forall i :: 1 <= i < |records| ==> records[i] == records[1..][i - 1];
    }
  }

  /** A reader sees exactly the records that are not below its offset. */
  lemma FromMembers(records: seq<Record>, offset: int)
    requires Rising(records)
    ensures forall x :: x in From(records, offset) <==> x in records && x.offset >= offset
  {
    BelowSplits(records, offset);
    var n := Below(records, offset);
    forall x | x in records && x.offset >= offset ensures x in records[n..] {
      var i :| 0 <= i < |records| && records[i] == x;
      assert records[n..][i - n] == x;
    }
  }

  lemma FromCons(first: Record, rest: seq<Record>, offset: int)
    ensures From([first] + rest, offset) == if first.offset < offset then From(rest, offset) else [first] + rest
  {
    assert ([first] + rest)[1..] == rest;
  }

  /** Every record of the new log was in the old one or was appended since. */
  ghost predicate Grows(l: Log, l': Log) {
    && l.end <= l'.end
    && forall r :: r in l'.records ==> r in l.records || r.offset >= l.end
  }

  // ---------------------------------------------------------------- compaction

  predicate Superseded(records: seq<Record>, i: nat)
    requires i < |records|
  {
    records[i].key.Some? && exists j :: i < j < |records| && records[j].key == records[i].key
  }

  /** The unkeyed records and the newest of every key, in log order. */
  ghost function Compacted(records: seq<Record>): (r: seq<Record>)
    ensures forall x :: x in r ==> x in records
  {
    if records == [] then [] else
      (if Superseded(records, 0) then [] else [records[0]]) + Compacted(records[1..])
  }

  /** The last value written to a key: none, or a value, or a tombstone. */
  ghost function Latest(records: seq<Record>, key: string): Option<Option<string>> {
    if records == [] then None
    else if records[|records| - 1].key == Some(key) then Some(records[|records| - 1].value)
    else Latest(records[..|records| - 1], key)
  }

  /** From the front: later records win. */
  lemma {:induction false} LatestFirst(records: seq<Record>, key: string)
    requires records != []
    ensures Latest(records, key) ==
            var rest := Latest(records[1..], key);
            if rest.Some? then rest else if records[0].key == Some(key) then Some(records[0].value) else None
  {
    var n := |records| - 1;
    if n > 0 {
      LatestFirst(records[..n], key);
      assert records[1..][..n - 1] == records[..n][1..];
    }
  }

  lemma {:induction false} LatestExists(records: seq<Record>, key: string)
    ensures Latest(records, key).Some? <==> exists i :: 0 <= i < |records| && records[i].key == Some(key)
  {
    if records != [] {
      var n := |records| - 1;
      LatestExists(records[..n], key);
      if i :| 0 <= i < |records| && records[i].key == Some(key) {
        assert i < n ==> records[..n][i].key == Some(key);
      }
      assert forall i {:trigger records[i]} :: 0 <= i < n ==> records[..n][i] == records[i];
    }
  }

  lemma {:induction false} CompactedKeepsTable(records: seq<Record>, key: string)
    ensures Latest(Compacted(records), key) == Latest(records, key)
  {
    if records != [] {
      var rest := Compacted(records[1..]);
      CompactedKeepsTable(records[1..], key);
      LatestFirst(records, key);
      LatestExists(records[1..], key);
      if Superseded(records, 0) {
        LaterCopy(records, key);
        assert Compacted(records) == rest;
      } else {
        assert Compacted(records) == [records[0]] + rest;
        assert ([records[0]] + rest)[1..] == rest;
        LatestFirst([records[0]] + rest, key);
      }
    }
  }

  lemma LaterCopy(records: seq<Record>, key: string)
    requires records != [] && Superseded(records, 0)
    ensures records[0].key == Some(key) ==> exists i :: 0 <= i < |records[1..]| && records[1..][i].key == Some(key)
  {
    var j :| 0 < j < |records| && records[j].key == records[0].key;
    assert records[1..][j - 1] == records[j];
  }

  lemma {:induction false} CompactedRising(records: seq<Record>)
    requires Rising(records)
    ensures Rising(Compacted(records))
    ensures forall i :: 0 <= i < |Compacted(records)| ==> Compacted(records)[i] in records
  {
    if records != [] {
      CompactedRising(records[1..]);
      var rest := Compacted(records[1..]);
      hide Superseded;
      forall i | 0 <= i < |rest| ensures records[0].offset < rest[i].offset && rest[i] in records {
        assert rest[i] in records[1..];
      }
    }
  }

  /** Compacting and reading from an offset commute. */
  lemma {:induction false} CompactedFrom(records: seq<Record>, offset: int)
    requires Rising(records)
    ensures From(Compacted(records), offset) == Compacted(From(records, offset))
  {
    hide *;
    if records == [] || records[0].offset >= offset {
      NothingBelow(records, offset);
    } else {
      RisingTail(records);
      CompactedFrom(records[1..], offset);
      CompactedCons(records);
      assert records == [records[0]] + records[1..];
      FromCons(records[0], records[1..], offset);
      FromCons(records[0], Compacted(records[1..]), offset);
    }
  }

  lemma RisingTail(records: seq<Record>)
    requires Rising(records) && records != []
    ensures Rising(records[1..])
  {
  }

  lemma CompactedCons(records: seq<Record>)
    requires records != []
    ensures Compacted(records) == Compacted(records[1..]) ||
            Compacted(records) == [records[0]] + Compacted(records[1..])
  {
  }

  lemma NothingBelow(records: seq<Record>, offset: int)
    requires Rising(records) && (records == [] || records[0].offset >= offset)
    ensures From(records, offset) == records && From(Compacted(records), offset) == Compacted(records)
  {
    var all := Compacted(records);
    CompactedRising(records);
    if all != [] {
      assert all[0] in records;
    }
  }

  /** Whatever offset a reader starts from, the table it builds is the same after a compaction. */
  lemma CompactionKeepsReaders(records: seq<Record>, offset: int, key: string)
    requires Rising(records)
    ensures Latest(From(Compacted(records), offset), key) == Latest(From(records, offset), key)
  {
    CompactedFrom(records, offset);
    CompactedKeepsTable(From(records, offset), key);
  }

  /** No key is left twice, and no unkeyed record is lost. */
  lemma {:induction false} CompactedIsMinimal(records: seq<Record>)
    ensures forall i, j :: 0 <= i < j < |Compacted(records)| && Compacted(records)[i].key.Some? ==>
              Compacted(records)[i].key != Compacted(records)[j].key
    ensures forall x :: x in records && x.key.None? ==> x in Compacted(records)
  {
    if records != [] {
      var rest, all := Compacted(records[1..]), Compacted(records);
      CompactedIsMinimal(records[1..]);
      assert records == [records[0]] + records[1..];
      if !Superseded(records, 0) {
        forall j | 0 <= j < |rest| ensures records[0].key.Some? ==> rest[j].key != records[0].key {
          assert rest[j] in rest && rest[j] in records[1..];
          var i :| 0 <= i < |records[1..]| && records[1..][i] == rest[j];
          assert records[i + 1] == rest[j];
        }
      }
    }
  }

  /** The records not superseded, of the first `n`. */
  ghost function KeptOf(records: seq<Record>, n: nat): seq<Record>
    requires n <= |records|
  {
    if n == 0 then [] else KeptOf(records, n - 1) + if Superseded(records, n - 1) then [] else [records[n - 1]]
  }

  lemma {:induction false} KeptOfTail(records: seq<Record>, n: nat)
    requires 1 <= n <= |records|
    ensures KeptOf(records, n) == (if Superseded(records, 0) then [] else [records[0]]) + KeptOf(records[1..], n - 1)
  {
    if n > 1 {
      KeptOfTail(records, n - 1);
      SupersededTail(records, n - 1);
    }
  }

  lemma SupersededTail(records: seq<Record>, i: nat)
    requires 1 <= i < |records|
    ensures Superseded(records, i) <==> Superseded(records[1..], i - 1)
  {
    if Superseded(records, i) {
      var j :| i < j < |records| && records[j].key == records[i].key;
      assert records[1..][j - 1] == records[j];
    }
    if Superseded(records[1..], i - 1) {
      var j :| i - 1 < j < |records[1..]| && records[1..][j].key == records[1..][i - 1].key;
      assert records[j + 1] == records[1..][j];
    }
  }

  lemma {:induction false} KeptOfAll(records: seq<Record>)
    ensures KeptOf(records, |records|) == Compacted(records)
  {
    if records != [] {
      KeptOfTail(records, |records|);
      KeptOfAll(records[1..]);
    }
  }

  /** `newest` maps every key to the offset of its last record. */
  ghost predicate IsNewest(records: seq<Record>, n: nat, newest: map<string, nat>) {
    && n <= |records|
    && (forall i :: 0 <= i < n && records[i].key.Some? ==>
          records[i].key.value in newest && records[i].offset <= newest[records[i].key.value])
    && (forall k :: k in newest ==>
          exists i :: 0 <= i < n && records[i].key == Some(k) && records[i].offset == newest[k])
  }

  lemma NewestDecides(records: seq<Record>, newest: map<string, nat>, i: nat)
    requires Rising(records) && IsNewest(records, |records|, newest) && i < |records| && records[i].key.Some?
    ensures records[i].key.value in newest
    ensures newest[records[i].key.value] == records[i].offset <==> !Superseded(records, i)
  {
    var k := records[i].key.value;
    var j :| 0 <= j < |records| && records[j].key == Some(k) && records[j].offset == newest[k];
    if Superseded(records, i) {
      var m :| i < m < |records| && records[m].key == records[i].key;
      assert records[m].offset <= newest[k];
    }
  }

  // ---------------------------------------------------------------- retention

  ghost function YoungOf(records: seq<Record>, before: int): (r: seq<Record>)
    ensures forall x :: x in r <==> x in records && x.timestamp >= before
  {
    if records == [] then [] else
      assert records == [records[0]] + records[1..];
      (if records[0].timestamp >= before then [records[0]] else []) + YoungOf(records[1..], before)
  }

  lemma {:induction false} YoungIsRising(records: seq<Record>, before: int)
    requires Rising(records)
    ensures Rising(YoungOf(records, before))
  {
    if records != [] {
      YoungIsRising(records[1..], before);
      var rest := YoungOf(records[1..], before);
      forall i | 0 <= i < |rest| ensures records[0].offset < rest[i].offset {
        assert rest[i] in rest && rest[i] in records[1..];
      }
    }
  }

  lemma {:induction false} YoungSnoc(records: seq<Record>, last: Record, before: int)
    ensures YoungOf(records + [last], before) == YoungOf(records, before) + if last.timestamp >= before then [last]
            else []
  {
    if records != [] {
      YoungSnoc(records[1..], last, before);
      assert (records + [last])[1..] == records[1..] + [last];
    } else {
      assert records + [last] == [last];
    }
  }

  /** The log after time retention: the old records go, and readers may start no earlier than
      the first record left. */
  ghost function ExpiredLog(l: Log, before: int): Log {
    var kept := YoungOf(l.records, before);
    Log(kept, l.end, if kept != [] then kept[0].offset else l.end)
  }

  lemma ExpiredOk(l: Log, before: int)
    requires LogOk(l)
    ensures LogOk(ExpiredLog(l, before)) && Grows(l, ExpiredLog(l, before))
  {
    var kept := YoungOf(l.records, before);
    YoungIsRising(l.records, before);
    forall i | 0 <= i < |kept| ensures kept[0].offset <= kept[i].offset < l.end {
      assert kept[i] in kept && kept[i] in l.records;
    }
  }

  lemma CompactedOk(l: Log)
    requires LogOk(l)
    ensures LogOk(l.(records := Compacted(l.records))) && Grows(l, l.(records := Compacted(l.records)))
  {
    CompactedRising(l.records);
    hide Superseded, Compacted;
    var kept := Compacted(l.records);
    forall i | 0 <= i < |kept| ensures l.start <= kept[i].offset < l.end {
      assert kept[i] in l.records;
    }
  }

  class Partition {
    const topic: string
    const index: nat
    var records: seq<Record>
    var endOffset: nat
    var logStart: nat

    ghost function Snap(): (l: Log)
      reads this
      ensures l == Log(records, endOffset, logStart)
    {
      Log(records, endOffset, logStart)
    }

    ghost predicate Valid()
      reads this
    {
      LogOk(Snap())
    }

    constructor (topic: string, index: nat)
      ensures Valid() && Snap() == Log([], 0, 0) && this.topic == topic && this.index == index
    {
      this.topic, this.index := topic, index;
      records, endOffset, logStart := [], 0, 0;
    }

    method Append(key: Option<string>, value: Option<string>, timestamp: int) returns (record: Record)
      requires Valid()
      modifies this
      ensures Valid() && Grows(old(Snap()), Snap())
      ensures record == Record(old(endOffset), key, value, timestamp)
      ensures Snap() == Log(old(records) + [record], old(endOffset) + 1, old(logStart))
    {
      record := Record(endOffset, key, value, timestamp);
      records := records + [record];
      endOffset := endOffset + 1;
    }

    /** The first `limit` records from `offset` on; `None` when the log starts later. */
    method Read(offset: int, limit: nat) returns (r: Option<seq<Record>>)
      requires Valid()
      ensures r == if offset < logStart then None else Some(FirstN(From(records, offset), limit))
    {
      if offset < logStart {
        return None;
      }
      var lo, hi := 0, |records|;
      while lo < hi
        invariant lo <= hi <= |records|
        invariant forall i :: 0 <= i < lo ==> records[i].offset < offset
        invariant forall i :: hi <= i < |records| ==> records[i].offset >= offset
      {
        var mid := (lo + hi) / 2;
        if records[mid].offset < offset {
          lo := mid + 1;
        } else {
          hi := mid;
        }
      }
      BelowIsUnique(records, offset, lo);
      assert lo + limit <= |records| ==> records[lo..][..limit] == records[lo..lo + limit];
      return Some(if lo + limit <= |records| then records[lo..lo + limit] else records[lo..]);
    }

    method Compact() returns (removed: nat)
      requires Valid()
      modifies this
      ensures Valid() && Grows(old(Snap()), Snap())
      ensures Snap() == old(Snap()).(records := Compacted(old(records))) && removed == |old(records)| - |records|
    {
      hide *;
      ghost var was := Snap();
      UnpackLog();
      CompactedOk(was);
      var newest := Newest();
      var keep: seq<Record> := [];
      NoneKept();
      for i := 0 to |records|
        invariant Snap() == was && |keep| <= i && keep == KeptOf(records, i)
      {
        Keeps(newest, i, i + 1);
        var key := records[i].key;
        if key.None? || newest[key.value] == records[i].offset {
          keep := keep + [records[i]];
        }
      }
      KeptOfAll(records);
      removed := |records| - |keep|;
      records := keep;
      PackLog();
    }

    method Newest() returns (newest: map<string, nat>)
      requires Rising(records)
      ensures IsNewest(records, |records|, newest)
    {
      newest := map[];
      for i := 0 to |records|
        invariant IsNewest(records, i, newest)
      {
        if records[i].key.Some? {
          newest := newest[records[i].key.value := records[i].offset];
        }
      }
    }

    lemma NoneKept()
      ensures KeptOf(records, 0) == []
    {
    }

    lemma Keeps(newest: map<string, nat>, i: nat, next: nat)
      requires Rising(records) && IsNewest(records, |records|, newest) && i < |records| && next == i + 1
      ensures records[i].key.Some? ==> records[i].key.value in newest
      ensures KeptOf(records, next) == KeptOf(records, i) +
                if records[i].key.None? || newest[records[i].key.value] == records[i].offset then [records[i]] else []
    {
      hide IsNewest, Rising;
      if records[i].key.Some? {
        NewestDecides(records, newest, i);
      }
    }

    lemma PackLog()
      requires LogOk(Snap())
      ensures Valid()
    {
    }

    lemma UnpackLog()
      requires Valid()
      ensures LogOk(Snap()) && Rising(records)
    {
    }

    method Expire(before: int) returns (removed: nat)
      requires Valid()
      modifies this
      ensures Valid() && Grows(old(Snap()), Snap())
      ensures Snap() == ExpiredLog(old(Snap()), before) && removed == |old(records)| - |records|
    {
      hide LogOk, Grows, YoungOf;
      ghost var was := Snap();
      ExpiredOk(was, before);
      NoneYoung(before);
      var keep: seq<Record> := [];
      for i := 0 to |records|
        invariant Snap() == was && |keep| <= i && keep == YoungOf(records[..i], before)
      {
        assert records[..i + 1] == records[..i] + [records[i]];
        YoungSnoc(records[..i], records[i], before);
        if records[i].timestamp >= before {
          keep := keep + [records[i]];
        }
      }
      assert records[..|records|] == records;
      removed := |records| - |keep|;
      records := keep;
      logStart := if keep != [] then keep[0].offset else endOffset;
    }

    lemma NoneYoung(before: int)
      ensures YoungOf(records[..0], before) == []
    {
    }
  }
}
