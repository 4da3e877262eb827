/** The broker: topics of partitions, committed offsets and the producers' sequence numbers; and
    the producer that numbers its records. */
module KafkaBroker {
  import opened KafkaLog
  import opened Wrappers

  datatype Result<+T> = Ok(value: T) | NotFound | Conflict | Invalid | OutOfRange

  /** A producer's or a group's place on one partition. */
  type Slot = (string, string, nat)

  /** The records a producer's sequence numbers 0, 1, 2, ... stand for. */
  type Produced = map<Slot, seq<Record>>

  type Logs = map<string, seq<Log>>

  ghost function History(produced: Produced, slot: Slot): seq<Record> {
    if slot in produced then produced[slot] else []
  }

  /** The sequence table remembers the last number of every history and the record it produced. */
  ghost predicate Remembers(sequences: map<Slot, (nat, Record)>, produced: Produced) {
    && (forall k :: k in sequences <==> k in produced)
    && forall k :: k in produced ==>
         produced[k] != [] && sequences[k] == (|produced[k]| - 1, produced[k][|produced[k]| - 1])
  }

  /** Every partition only grew. */
  ghost predicate AllGrow(a: Logs, b: Logs) {
    && (forall t :: t in a ==> t in b && |b[t]| == |a[t]|)
    && forall t, p :: t in a && 0 <= p < |a[t]| ==> Grows(a[t][p], b[t][p])
  }

  ghost function LogsOf(ps: seq<Partition>): (s: seq<Log>)
    reads ps
    ensures |s| == |ps| && forall p :: 0 <= p < |ps| ==> s[p] == ps[p].Snap()
  {
    seq(|ps|, p requires 0 <= p < |ps| reads ps => ps[p].Snap())
  }

  function Appended(l: Log, key: Option<string>, value: Option<string>, now: int): Log {
    Log(l.records + [Record(l.end, key, value, now)], l.end + 1, l.start)
  }

  ghost function WithLog(s: Logs, t: string, p: nat, l: Log): Logs
    requires t in s && p < |s[t]|
  {
    s[t := s[t][p := l]]
  }

  lemma OneGrew(s: Logs, t: string, p: nat, l: Log)
    requires t in s && p < |s[t]| && Grows(s[t][p], l)
    ensures AllGrow(s, WithLog(s, t, p, l))
  {
    hide Grows;
    forall u, q | u in s && 0 <= q < |s[u]| ensures Grows(s[u][q], WithLog(s, t, p, l)[u][q]) {
      SameGrows(s[u][q]);
    }
  }

  lemma SameGrows(l: Log)
    ensures Grows(l, l)
  {
  }

  lemma NoneGrew(s: Logs)
    ensures AllGrow(s, s)
  {
  }

  /** What an append answers and writes. */
  ghost predicate AppendAs(l: Log, l': Log, h: seq<Record>, h': seq<Record>, key: Option<string>, value: Option<string>,
                           producer: bool, sequence: Option<int>, now: int, r: Result<Record>)
  {
    if !producer then
      l' == Appended(l, key, value, now) && h' == h && r == Ok(Record(l.end, key, value, now))
    else if sequence.None? then
      l' == l && h' == h && r == Invalid
    else if h != [] && sequence.value == |h| - 1 then  // a retry: the first answer again
      l' == l && h' == h && r == Ok(h[|h| - 1])
    else if sequence.value != |h| then  // a gap
      l' == l && h' == h && r == Conflict
    else
      l' == Appended(l, key, value, now) && h' == h + [Record(l.end, key, value, now)] &&
          r == Ok(Record(l.end, key, value, now))
  }

  function SlotOf(producerId: Option<string>, topic: string, p: nat): Slot {
    (producerId.GetOr(""), topic, p)
  }

  /** An append to one partition leaves the others, and the other producers' histories, alone. */
  ghost predicate Wrote(s: Logs, s': Logs, produced: Produced, produced': Produced, topic: string, p: nat,
                        key: Option<string>, value: Option<string>, producerId: Option<string>, sequence: Option<int>,
                        now: int, r: Result<Record>)
  {
    var slot := SlotOf(producerId, topic, p);
    && topic in s && p < |s[topic]| && topic in s' && p < |s'[topic]|
    && s' == WithLog(s, topic, p, s'[topic][p])
    && AppendAs(s[topic][p], s'[topic][p], History(produced, slot), History(produced', slot), key, value,
                producerId.Some?, sequence, now, r)
    && forall k: Slot :: k != slot ==> History(produced', k) == History(produced, k)
  }

  /** Every refusal, and the answer to a retry, leaves the log and the history alone. */
  lemma Refuses(s: Logs, produced: Produced, topic: string, p: nat, key: Option<string>, value: Option<string>,
                producerId: Option<string>, sequence: Option<int>, now: int)
    requires topic in s && p < |s[topic]|
    ensures var h := History(produced, SlotOf(producerId, topic, p));
            producerId.Some? ==>
              && (sequence.None? ==>
                  Wrote(s, s, produced, produced, topic, p, key, value, producerId, sequence, now, Invalid))
              && (sequence.Some? && h != [] && sequence.value == |h| - 1 ==>
                    Wrote(s, s, produced, produced, topic, p, key, value, producerId, sequence, now, Ok(h[|h| - 1])))
              && (sequence.Some? && !(h != [] && sequence.value == |h| - 1) && sequence.value != |h| ==>
                    Wrote(s, s, produced, produced, topic, p, key, value, producerId, sequence, now, Conflict))
  {
    assert s[topic][p := s[topic][p]] == s[topic];
    assert WithLog(s, topic, p, s[topic][p]) == s;
  }

  /** A new record on the log and, for a numbered send, at the end of its history. */
  lemma Stored(s: Logs, produced: Produced, topic: string, p: nat, key: Option<string>, value: Option<string>,
               producerId: Option<string>, sequence: Option<int>, now: int)
    requires topic in s && p < |s[topic]|
    requires producerId.Some? ==> sequence == Some(|History(produced, SlotOf(producerId, topic, p))|)
    ensures var slot, record := SlotOf(producerId, topic, p), Record(s[topic][p].end, key, value, now);
            var produced' := if producerId.Some? then produced[slot := History(produced, slot) + [record]]
                else produced;
            Wrote(s, WithLog(s, topic, p, Log(s[topic][p].records + [record], s[topic][p].end + 1, s[topic][p].start)),
                  produced, produced', topic, p, key, value,
                  producerId, sequence, now, Ok(record))
  {
  }

  /** Every topic has partitions, and every partition knows its place. */
  ghost predicate Shaped(topics: map<string, seq<Partition>>, retention: map<string, Option<int>>,
                         parts: set<Partition>) {
    && (forall t :: t in topics ==> t in retention && topics[t] != [])
    && (forall t, p :: t in topics && 0 <= p < |topics[t]| ==>
          topics[t][p] in parts && topics[t][p].topic == t && topics[t][p].index == p)
  }

  lemma ShapedMore(topics: map<string, seq<Partition>>, retention: map<string, Option<int>>, parts: set<Partition>,
                   name: string, logs: seq<Partition>, keepFor: Option<int>)
    requires Shaped(topics, retention, parts) && logs != []
    requires forall p :: 0 <= p < |logs| ==> logs[p].topic == name && logs[p].index == p
    ensures Shaped(topics[name := logs], retention[name := keepFor], parts + set l | l in logs)
  {
  }

  class Broker {
    var topics: map<string, seq<Partition>>
    var retention: map<string, Option<int>>
    var committed: map<Slot, nat>
    var sequences: map<Slot, (nat, Record)>
    ghost var produced: Produced  // every record of every numbered send
    ghost var parts: set<Partition>

    ghost predicate Structure()
      reads this`topics, this`retention, this`parts
    {
      Shaped(topics, retention, parts)
    }

    ghost function Snap(): (s: Logs)
      reads this`topics, this`retention, this`parts, parts
      requires Structure()
      ensures s.Keys == topics.Keys
      ensures forall t :: t in topics ==> |s[t]| == |topics[t]|
      ensures forall t, p :: t in topics && 0 <= p < |topics[t]| ==> s[t][p] == topics[t][p].Snap()
    {
      map t | t in topics :: LogsOf(topics[t])
    }

    ghost predicate Valid()
      reads this, parts
    {
      && Structure() && (forall l :: l in parts ==> l.Valid())
      && Committable(committed, Snap()) && Remembers(sequences, produced)
    }

    constructor ()
      ensures Valid() && fresh(parts) && topics == map[] && committed == map[] && produced == map[]
    {
      topics, retention, committed, sequences, produced, parts := map[], map[], map[], map[], map[], {};
    }

    function Locate(topic: string, partition: int): Result<Partition>
      reads this`topics
    {
      if topic !in topics then NotFound
      else if 0 <= partition < |topics[topic]| then Ok(topics[topic][partition])
      else Invalid
    }

    /** One partition changed: the snapshot changed there and nowhere else. */
    lemma OneChanged(before: Logs, t: string, p: nat)
      requires Structure() && t in topics && p < |topics[t]| && before.Keys == topics.Keys
      requires forall u :: u in topics ==> |before[u]| == |topics[u]|
      requires forall u, q :: u in topics && 0 <= q < |topics[u]| && topics[u][q] != topics[t][p] ==>
                 before[u][q] == topics[u][q].Snap()
      ensures Snap() == WithLog(before, t, p, topics[t][p].Snap())
    {
      var now, then' := Snap(), WithLog(before, t, p, topics[t][p].Snap());
      forall u | u in topics ensures now[u] == then'[u] {
        forall q | 0 <= q < |topics[u]| ensures now[u][q] == then'[u][q] {
          if (u, q) != (t, p) {
            assert topics[u][q] != topics[t][p];
          }
        }
      }
    }

    /** A partition that only grew leaves the broker sound. */
    lemma StaysSound(before: Logs, t: string, p: nat)
      requires Structure() && t in topics && p < |topics[t]| && before.Keys == topics.Keys
      requires forall u :: u in topics ==> |before[u]| == |topics[u]|
      requires forall u, q :: u in topics && 0 <= q < |topics[u]| && topics[u][q] != topics[t][p] ==>
                 before[u][q] == topics[u][q].Snap()
      requires Grows(before[t][p], topics[t][p].Snap()) && Committable(committed, before) &&
               Remembers(sequences, produced)
      requires forall l :: l in parts ==> l.Valid()
      ensures Valid() && AllGrow(before, Snap()) && Snap() == WithLog(before, t, p, topics[t][p].Snap())
    {
      hide Grows, Remembers, Committable, AllGrow;
      OneChanged(before, t, p);
      OneGrew(before, t, p, topics[t][p].Snap());
      StillCommittable(committed, before, Snap());
    }

    lemma Unpack()
      requires Valid()
      ensures Structure() && Committable(committed, Snap()) && Remembers(sequences, produced)
      ensures forall l :: l in parts ==> l.Valid()
      ensures forall t :: t in topics ==> t in retention && topics[t] != []
    {
    }

    lemma Found(t: string, p: nat)
      requires t in topics && p < |topics[t]|
      ensures Locate(t, p) == Ok(topics[t][p])
    {
    }

    lemma Members(t: string, p: nat)
      requires Structure() && t in topics && p < |topics[t]|
      ensures topics[t][p] in parts
    {
    }

    method CreateTopic(name: string, partitions: int, keepFor: Option<int>) returns (r: Result<()>)
      requires Valid()
      modifies this
      ensures Valid() && fresh(parts - old(parts)) && produced == old(produced) && committed == old(committed)
      ensures r == if partitions <= 0 || (keepFor.Some? && keepFor.value <= 0) then Invalid
                   else if name in old(topics) then Conflict
                   else Ok(())
      ensures !r.Ok? ==> topics == old(topics) && parts == old(parts)
      ensures r.Ok? ==>
                Snap() == old(Snap())[name := seq(partitions, _ => Log([], 0, 0))] && AllGrow(old(Snap()), Snap())
    {
      if partitions <= 0 || (keepFor.Some? && keepFor.value <= 0) {
        return Invalid;
      }
      if name in topics {
        return Conflict;
      }
      hide Remembers, Grows, Committable, AllGrow;
      ghost var before := Snap();
      var logs := NewLogs(name, partitions);
      ShapedMore(topics, retention, parts, name, logs, keepFor);
      hide Shaped;
      topics := topics[name := logs];
      retention := retention[name := keepFor];
      parts := parts + set l | l in logs;
      TopicAdded(before, name, logs);
      return Ok(());
    }

    method NewLogs(name: string, partitions: nat) returns (logs: seq<Partition>)
      ensures |logs| == partitions
      ensures forall p :: 0 <= p < partitions ==>
                fresh(logs[p]) && logs[p].Snap() == Log([], 0, 0) && logs[p].topic == name && logs[p].index == p
    {
      logs := [];
      for i := 0 to partitions
        invariant |logs| == i
        invariant forall p :: 0 <= p < i ==>
                    fresh(logs[p]) && logs[p].Snap() == Log([], 0, 0) && logs[p].topic == name && logs[p].index == p
      {
        var log := new Partition(name, i);
        logs := logs + [log];
      }
    }

    /** A new topic of empty logs. */
    lemma TopicAdded(before: Logs, name: string, logs: seq<Partition>)
      requires Structure() && name !in before && topics.Keys == before.Keys + {name} && topics[name] == logs
      requires Committable(committed, before) && Remembers(sequences, produced) && forall l :: l in parts ==> l.Valid()
      requires forall t :: t in before ==>
                 |before[t]| == |topics[t]| && forall p :: 0 <= p < |topics[t]| ==> before[t][p] == topics[t][p].Snap()
      requires forall p :: 0 <= p < |logs| ==> logs[p].Snap() == Log([], 0, 0)
      ensures Valid() && Snap() == before[name := seq(|logs|, _ => Log([], 0, 0))] && AllGrow(before, Snap())
    {
      hide Remembers, Grows, Committable, AllGrow;
      forall t | t in before ensures Snap()[t] == before[t] {
        assert forall p :: 0 <= p < |topics[t]| ==> Snap()[t][p] == before[t][p];
      }
      assert Snap()[name] == seq(|logs|, _ => Log([], 0, 0));
      assert Snap() == before[name := seq(|logs|, _ => Log([], 0, 0))];
      MoreTopics(committed, before, Snap());
    }

    /** Append one record; a numbered send is checked against its producer's history. */
    method Append(topic: string, partition: int, key: Option<string>, value: Option<string>,
                  producerId: Option<string>, sequence: Option<int>, now: int) returns (r: Result<Record>)
      requires Valid()
      modifies this`sequences, this`produced, parts
      ensures Valid() && AllGrow(old(Snap()), Snap())
      ensures !Locate(topic, partition).Ok? ==> Snap() == old(Snap()) && produced == old(produced)
      ensures !Locate(topic, partition).Ok? ==> r == if topic in topics then Invalid else NotFound
      ensures Locate(topic, partition).Ok? ==>
                Wrote(old(Snap()), Snap(), old(produced), produced, topic, partition, key, value, producerId, sequence,
                      now, r)
    {
      hide Remembers, Grows, AllGrow, Committable, Wrote;
      NoneGrew(Snap());
      var found := Locate(topic, partition);
      if found.NotFound? {
        return NotFound;
      }
      if found.Invalid? {
        return Invalid;
      }
      r := AppendTo(found.value, topic, partition, key, value, producerId, sequence, now);
    }

    method AppendTo(log: Partition, topic: string, p: nat, key: Option<string>, value: Option<string>,
                    producerId: Option<string>, sequence: Option<int>, now: int) returns (r: Result<Record>)
      requires Valid() && topic in topics && p < |topics[topic]| && log == topics[topic][p]
      modifies this`sequences, this`produced, parts
      ensures Valid() && AllGrow(old(Snap()), Snap())
      ensures Wrote(old(Snap()), Snap(), old(produced), produced, topic, p, key, value, producerId, sequence, now, r)
    {
      hide *;
      Unpack();
      NoneGrew(Snap());
      var slot := SlotOf(producerId, topic, p);
      LastNumber(slot);
      Refuses(Snap(), produced, topic, p, key, value, producerId, sequence, now);
      if producerId.Some? {
        if sequence.None? {
          return Invalid;
        }
        var expected := 0;
        if slot in sequences {
          var (number, sent) := sequences[slot];
          if sequence.value == number {
            return Ok(sent);
          }
          expected := number + 1;
        }
        if sequence.value != expected {
          return Conflict;
        }
      }
      r := Store(log, topic, p, key, value, producerId, sequence, now);
    }

    /** Write the record and, for a numbered send, remember its number. */
    method Store(log: Partition, topic: string, p: nat, key: Option<string>, value: Option<string>,
                 producerId: Option<string>, sequence: Option<int>, now: int) returns (r: Result<Record>)
      requires Valid() && topic in topics && p < |topics[topic]| && log == topics[topic][p]
      requires producerId.Some? ==> sequence == Some(|History(produced, SlotOf(producerId, topic, p))|)
      modifies this`sequences, this`produced, parts
      ensures Valid() && AllGrow(old(Snap()), Snap())
      ensures Wrote(old(Snap()), Snap(), old(produced), produced, topic, p, key, value, producerId, sequence, now, r)
      ensures r.Ok?
    {
      hide *;
      Unpack();
      Members(topic, p);
      var slot := SlotOf(producerId, topic, p);
      ghost var h, before, was := History(produced, slot), Snap(), produced;
      LastNumber(slot);
      var record := log.Append(key, value, now);
      if producerId.Some? {
        NumberedNext(sequences, produced, slot, record);
        sequences := sequences[slot := (sequence.value, record)];
        produced := produced[slot := h + [record]];
      }
      StaysSound(before, topic, p);
      Stored(before, was, topic, p, key, value, producerId, sequence, now);
      return Ok(record);
    }

    lemma LastNumber(slot: Slot)
      requires Valid()
      ensures var h := History(produced, slot);
              if slot in sequences then h != [] && sequences[slot] == (|h| - 1, h[|h| - 1]) else h == []
    {
    }

    method Fetch(topic: string, partition: int, offset: int, limit: int) returns (r: Result<seq<Record>>)
      requires Valid()
      ensures limit <= 0 ==> r == Invalid
      ensures limit > 0 && Locate(topic, partition).Ok? ==>
                var l := Snap()[topic][partition];
                r == if offset < l.start then OutOfRange else Ok(FirstN(From(l.records, offset), limit))
      ensures limit > 0 && !Locate(topic, partition).Ok? ==> r.NotFound? || r.Invalid?
    {
      hide Remembers, Committable;
      if limit <= 0 {
        return Invalid;
      }
      match Locate(topic, partition)
      case NotFound => return NotFound;
      case Ok(log) =>
        var read := log.Read(offset, limit);
        return if read.Some? then Ok(read.value) else OutOfRange;
      case _ => return Invalid;
    }

    method Commit(group: string, topic: string, partition: int, offset: int) returns (r: Result<()>)
      requires Valid()
      modifies this`committed
      ensures Valid()
      ensures var found := Locate(topic, partition);
              if found.Ok? && 0 <= offset <= Snap()[topic][partition].end
              then r == Ok(()) && committed == old(committed)[(group, topic, partition) := offset]
              else !r.Ok? && committed == old(committed)
    {
      hide Remembers;
      match Locate(topic, partition)
      case NotFound => return NotFound;
      case Ok(log) =>
        if !(0 <= offset <= log.endOffset) {
          return Invalid;
        }
        committed := committed[(group, topic, partition) := offset];
        return Ok(());
      case _ => return Invalid;
    }

    function Committed(group: string, topic: string, p: nat): Option<nat>
      reads this`committed
    {
      if (group, topic, p) in committed then Some(committed[(group, topic, p)]) else None
    }

    /** Log start and end of a partition. */
    method Offsets(topic: string, partition: int) returns (r: Result<(nat, nat)>)
      requires Valid()
      ensures Locate(topic, partition).Ok? ==> r == Ok((Snap()[topic][partition].start, Snap()[topic][partition].end))
      ensures !Locate(topic, partition).Ok? ==> r.NotFound? || r.Invalid?
    {
      match Locate(topic, partition)
      case NotFound => return NotFound;
      case Ok(log) => return Ok((log.logStart, log.endOffset));
      case _ => return Invalid;
    }

    /** Compact every partition of a topic. */
    method Compact(topic: string) returns (r: Result<nat>)
      requires Valid()
      modifies parts
      ensures Valid() && AllGrow(old(Snap()), Snap())
      ensures if topic in topics then r.Ok? && CompactedUpTo(old(Snap()), Snap(), topic, |topics[topic]|)
              else r == NotFound && Snap() == old(Snap())
    {
      hide *;
      Unpack();
      ghost var before := Snap();
      NoneGrew(before);
      if topic !in topics {
        return NotFound;
      }
      var removed := 0;
      NoneCompacted(before, topic);
      for p := 0 to |topics[topic]|
        invariant Valid() && AllGrow(before, Snap())
        invariant CompactedUpTo(before, Snap(), topic, p)
      {
        ghost var now := Snap();
        Unpack();
        Members(topic, p);
        CompactStep(before, now, topic, p, p + 1);
        var n := topics[topic][p].Compact();
        StaysSound(now, topic, p);
        GrowsOn(before, now, Snap());
        removed := removed + n;
      }
      return Ok(removed);
    }

    /** Apply the topic's time retention to every partition. */
    method Expire(topic: string, now: int) returns (r: Result<nat>)
      requires Valid()
      modifies parts
      ensures Valid() && AllGrow(old(Snap()), Snap())
      ensures topic !in topics ==> r == NotFound && Snap() == old(Snap())
      ensures topic in topics && retention[topic].None? ==> r == Ok(0) && Snap() == old(Snap())
      ensures topic in topics && retention[topic].Some? ==>
                r.Ok? && ExpiredUpTo(old(Snap()), Snap(), topic, now - retention[topic].value, |topics[topic]|)
    {
      hide *;
      Unpack();
      ghost var was := Snap();
      NoneGrew(was);
      if topic !in topics {
        return NotFound;
      }
      if retention[topic].None? {
        return Ok(0);
      }
      var before := now - retention[topic].value;
      var removed := 0;
      NoneExpired(was, topic, before);
      for p := 0 to |topics[topic]|
        invariant Valid() && AllGrow(was, Snap())
        invariant ExpiredUpTo(was, Snap(), topic, before, p)
      {
        ghost var here := Snap();
        Unpack();
        Members(topic, p);
        ExpireStep(was, here, topic, before, p, p + 1);
        var n := topics[topic][p].Expire(before);
        StaysSound(here, topic, p);
        GrowsOn(was, here, Snap());
        removed := removed + n;
      }
      return Ok(removed);
    }
  }

  ghost predicate CompactedUpTo(a: Logs, b: Logs, t: string, n: nat) {
    && t in a && n <= |a[t]| && b.Keys == a.Keys && |b[t]| == |a[t]|
    && (forall u :: u in a && u != t ==> b[u] == a[u])
    && (forall p :: 0 <= p < n ==> b[t][p] == a[t][p].(records := Compacted(a[t][p].records)))
    && (forall p :: n <= p < |a[t]| ==> b[t][p] == a[t][p])
  }

  lemma NoneCompacted(a: Logs, t: string)
    requires t in a
    ensures CompactedUpTo(a, a, t, 0)
  {
  }

  lemma CompactStep(a: Logs, b: Logs, t: string, p: nat, next: nat)
    requires CompactedUpTo(a, b, t, p) && p < |a[t]| && next == p + 1
    ensures t in b && p < |b[t]|
    ensures CompactedUpTo(a, WithLog(b, t, p, b[t][p].(records := Compacted(b[t][p].records))), t, next)
  {
    hide Compacted;
  }

  ghost predicate ExpiredUpTo(a: Logs, b: Logs, t: string, before: int, n: nat) {
    && t in a && n <= |a[t]| && b.Keys == a.Keys && |b[t]| == |a[t]|
    && (forall u :: u in a && u != t ==> b[u] == a[u])
    && (forall p :: 0 <= p < n ==> b[t][p] == ExpiredLog(a[t][p], before))
    && (forall p :: n <= p < |a[t]| ==> b[t][p] == a[t][p])
  }

  lemma NoneExpired(a: Logs, t: string, before: int)
    requires t in a
    ensures ExpiredUpTo(a, a, t, before, 0)
  {
  }

  lemma ExpireStep(a: Logs, b: Logs, t: string, before: int, p: nat, next: nat)
    requires ExpiredUpTo(a, b, t, before, p) && p < |a[t]| && next == p + 1
    ensures t in b && p < |b[t]|
    ensures ExpiredUpTo(a, WithLog(b, t, p, ExpiredLog(b[t][p], before)), t, before, next)
  {
    hide ExpiredLog;
  }

  lemma GrowsOn(a: Logs, b: Logs, c: Logs)
    requires AllGrow(a, b) && AllGrow(b, c)
    ensures AllGrow(a, c)
  {
    forall t, p | t in a && 0 <= p < |a[t]| ensures Grows(a[t][p], c[t][p]) {
      assert Grows(a[t][p], b[t][p]) && Grows(b[t][p], c[t][p]);
    }
  }

  lemma NumberedNext(sequences: map<Slot, (nat, Record)>, produced: Produced, slot: Slot, record: Record)
    requires Remembers(sequences, produced)
    ensures var h := History(produced, slot);
            Remembers(sequences[slot := (|h|, record)], produced[slot := h + [record]])
  {
  }

  lemma MoreTopics(committed: map<Slot, nat>, a: Logs, b: Logs)
    requires Committable(committed, a) && forall t :: t in a ==> t in b && b[t] == a[t]
    ensures Committable(committed, b) && AllGrow(a, b)
  {
    forall t, p | t in a && 0 <= p < |a[t]| ensures Grows(a[t][p], b[t][p]) {
      SameGrows(a[t][p]);
    }
  }

  /** No group has committed beyond the end of a log. */
  ghost predicate Committable(committed: map<Slot, nat>, s: Logs) {
    forall k :: k in committed ==> k.1 in s && k.2 < |s[k.1]| && committed[k] <= s[k.1][k.2].end
  }

  lemma StillCommittable(committed: map<Slot, nat>, a: Logs, b: Logs)
    requires Committable(committed, a) && AllGrow(a, b)
    ensures Committable(committed, b)
  {
    forall k | k in committed ensures k.1 in b && k.2 < |b[k.1]| && committed[k] <= b[k.1][k.2].end {
      assert Grows(a[k.1][k.2], b[k.1][k.2]);
    }
  }

  // ---------------------------------------------------------------- the producer

  ghost predicate Continues(id: string, sequences: map<(string, nat), nat>, produced: Produced) {
    forall t, p: nat :: (if (t, p) in sequences then sequences[(t, p)] else 0) == |History(produced, (id, t, p))|
  }

  lemma ContinuesOn(id: string, sequences: map<(string, nat), nat>, produced: Produced, produced': Produced,
                    topic: string, p: nat)
    requires Continues(id, sequences, produced)
    requires forall k: Slot :: k != (id, topic, p) ==> History(produced', k) == History(produced, k)
    ensures Continues(id, sequences[(topic, p) := |History(produced', (id, topic, p))|], produced')
  {
  }

  lemma FirstSend(s: Logs, s': Logs, produced: Produced, produced': Produced, topic: string, p: nat,
                  key: Option<string>,
                  value: Option<string>, id: string, sequence: int, now: int, r: Result<Record>)
    requires Wrote(s, s', produced, produced', topic, p, key, value, Some(id), Some(sequence), now, r)
    requires sequence == |History(produced, (id, topic, p))|
    ensures topic in s && p < |s[topic]|
    ensures var record := Record(s[topic][p].end, key, value, now);
            && r == Ok(record) && s' == WithLog(s, topic, p, Appended(s[topic][p], key, value, now))
            && History(produced', (id, topic, p)) == History(produced, (id, topic, p)) + [record]
            && forall k: Slot :: k != (id, topic, p) ==> History(produced', k) == History(produced, k)
  {
  }

  /** A repeated number is answered from memory, whatever the record says. */
  lemma Resend(s: Logs, s': Logs, produced: Produced, produced': Produced, topic: string, p: nat, key: Option<string>,
               value: Option<string>, id: string, sequence: int, now: int, r: Result<Record>)
    requires Wrote(s, s', produced, produced', topic, p, key, value, Some(id), Some(sequence), now, r)
    requires sequence == |History(produced, (id, topic, p))| - 1 && History(produced, (id, topic, p)) != []
    ensures s' == s && r == Ok(History(produced, (id, topic, p))[sequence])
    ensures forall k: Slot :: History(produced', k) == History(produced, k)
  {
    assert s[topic][p := s[topic][p]] == s[topic];
    forall k: Slot ensures History(produced', k) == History(produced, k) {
      assert k != (id, topic, p) || k == SlotOf(Some(id), topic, p);
    }
  }

  /** A numbered send is stored, or dropped but acknowledged with the last record, whatever the two
      say, or refused; its number and how much the id wrote to the partition decide which. */
  lemma NumberedSend(s: Logs, s': Logs, produced: Produced, produced': Produced, topic: string, p: nat,
                     key: Option<string>, value: Option<string>, id: string, sequence: int, now: int, r: Result<Record>)
    requires Wrote(s, s', produced, produced', topic, p, key, value, Some(id), Some(sequence), now, r)
    ensures var h := History(produced, (id, topic, p));
            && (r.Ok? && s' != s <==> sequence == |h|)
            && (r.Ok? && s' == s <==> h != [] && sequence == |h| - 1)
            && (!r.Ok? <==> sequence != |h| && !(h != [] && sequence == |h| - 1))
            && (r.Ok? && s' == s ==> r == Ok(h[|h| - 1]))
  {
    var h := History(produced, (id, topic, p));
    if h != [] && sequence == |h| - 1 {
      Resend(s, s', produced, produced', topic, p, key, value, id, sequence, now, r);
    } else if sequence == |h| {
      FirstSend(s, s', produced, produced', topic, p, key, value, id, sequence, now, r);
      assert s'[topic][p].end == s[topic][p].end + 1;
    }
  }

  /** A producer that starts over under a used id, at number 0: its first record is stored if
      the id wrote nothing to the partition, acknowledged and dropped if it wrote exactly one
      record, and refused otherwise. */
  lemma RestartedProducer(s: Logs, s': Logs, produced: Produced, produced': Produced, topic: string, p: nat,
                          key: Option<string>, value: Option<string>, id: string, now: int, r: Result<Record>)
    requires Wrote(s, s', produced, produced', topic, p, key, value, Some(id), Some(0), now, r)
    ensures var h := History(produced, (id, topic, p));
            && (r.Ok? && s' != s <==> h == [])
            && (r.Ok? && s' == s <==> |h| == 1)
            && (!r.Ok? <==> |h| > 1)
            && (|h| == 1 ==> r == Ok(h[0]))
  {
    hide *;
    NumberedSend(s, s', produced, produced', topic, p, key, value, id, 0, now, r);
  }

  class Producer {
    const broker: Broker
    const id: string
    const hash: string -> nat
    var sequences: map<(string, nat), nat>
    var roundRobin: nat

    constructor (broker: Broker, id: string, hash: string -> nat)
      ensures this.broker == broker && this.id == id && this.hash == hash && sequences == map[] && roundRobin == 0
    {
      this.broker, this.id, this.hash := broker, id, hash;
      sequences, roundRobin := map[], 0;
    }

    function NextNumber(topic: string, p: nat): nat
      reads this
    {
      if (topic, p) in sequences then sequences[(topic, p)] else 0
    }

    /** The producer's counters continue the broker's histories: nobody else uses its id. */
    ghost predicate InStep()
      reads this, broker`produced
    {
      Continues(id, sequences, broker.produced)
    }

    lemma InStepMeans()
      ensures InStep() <==> Continues(id, sequences, broker.produced)
    {
    }

    lemma OwnNumber(topic: string, p: nat)
      requires Continues(id, sequences, broker.produced)
      ensures NextNumber(topic, p) == |History(broker.produced, (id, topic, p))|
    {
    }

    function Choice(key: Option<string>, count: nat): (p: nat)
      requires count > 0
      reads this
      ensures p < count
    {
      if key.None? then roundRobin % count else hash(key.value) % count
    }

    method PartitionFor(topic: string, key: Option<string>) returns (r: Result<nat>)
      requires broker.Valid()
      modifies this`roundRobin
      ensures r == if topic in broker.topics then Ok(old(Choice(key, |broker.topics[topic]|))) else NotFound
      ensures r.Ok? ==> r.value < |broker.topics[topic]|
    {
      if topic !in broker.topics {
        return NotFound;
      }
      r := Ok(Choice(key, |broker.topics[topic]|));
      if key.None? {
        roundRobin := roundRobin + 1;
      }
    }

    /** The same send again, as a producer does whose acknowledgements were lost. */
    method Repeat(topic: string, p: nat, key: Option<string>, value: Option<string>, sequence: nat, times: nat,
                  now: int)
      requires broker.Valid() && topic in broker.topics && p < |broker.topics[topic]|
      requires sequence + 1 == |History(broker.produced, (id, topic, p))|
      modifies broker`sequences, broker`produced, broker.parts
      ensures broker.Valid() && broker.Snap() == old(broker.Snap())
      ensures forall k: Slot :: History(broker.produced, k) == History(old(broker.produced), k)
    {
      hide *;
      broker.Unpack();
      ghost var s, known := broker.Snap(), broker.produced;
      for i := 0 to times
        invariant broker.Valid() && broker.Snap() == s
        invariant forall k: Slot :: History(broker.produced, k) == History(known, k)
      {
        ghost var before := broker.produced;
        broker.Found(topic, p);
        var again := broker.Append(topic, p, key, value, Some(id), Some(sequence), now);
        Resend(s, broker.Snap(), before, broker.produced, topic, p, key, value, id, sequence, now, again);
      }
    }

    /** However often the send is repeated, one record is written and the answer is that record. */
    method Send(topic: string, value: Option<string>, key: Option<string>, attempts: int, now: int)
        returns (r: Result<Record>)
      requires broker.Valid() && InStep()
      modifies this, broker`sequences, broker`produced, broker.parts
      ensures broker.Valid() && InStep() && AllGrow(old(broker.Snap()), broker.Snap())
      ensures attempts <= 0 ==> r == Invalid
      ensures attempts > 0 && topic !in broker.topics ==> r == NotFound
      ensures !r.Ok? ==> broker.Snap() == old(broker.Snap()) && broker.produced == old(broker.produced)
      ensures attempts > 0 && topic in broker.topics ==>
                var p, s := old(Choice(key, |broker.topics[topic]|)), old(broker.Snap());
                && r == Ok(Record(s[topic][p].end, key, value, now))
                && broker.Snap() == WithLog(s, topic, p, Appended(s[topic][p], key, value, now))
    {
      hide *;
      broker.Unpack();
      InStepMeans();
      ghost var s, was := broker.Snap(), broker.produced;
      NoneGrew(s);
      if attempts <= 0 {
        return Invalid;
      }
      var chosen := PartitionFor(topic, key);
      if chosen.NotFound? {
        InStepMeans();
        return NotFound;
      }
      var p := chosen.value;
      var sequence := NextNumber(topic, p);
      OwnNumber(topic, p);
      broker.Found(topic, p);
      r := broker.Append(topic, p, key, value, Some(id), Some(sequence), now);
      FirstSend(s, broker.Snap(), was, broker.produced, topic, p, key, value, id, sequence, now, r);
      ghost var sent := broker.produced;
      Repeat(topic, p, key, value, sequence, attempts - 1, now);
      ContinuesOn(id, sequences, was, broker.produced, topic, p);
      sequences := sequences[(topic, p) := sequence + 1];
      InStepMeans();
    }
  }
}
