/** The Count-Min Sketch: rows of counters that can only overcount. */
module CountMinSketch {

  datatype Result<+T> = Ok(value: T) | Invalid

  /** What was added, in order. */
  type History = seq<(string, nat)>

  function Odd(n: nat): nat {
    if n % 2 == 1 then n else n + 1
  }

  /** Double hashing: the counter of an item in a row. */
  function Slot(digest: string -> (nat, nat), item: string, row: nat, width: nat): (s: nat)
    requires width > 0
    ensures s < width
  {
    (digest(item).0 + row * Odd(digest(item).1)) % width
  }

  /** The true count of an item. */
  function CountOf(h: History, item: string): nat {
    if h == [] then 0 else CountOf(h[..|h| - 1], item) + if h[|h| - 1].0 == item then h[|h| - 1].1 else 0
  }

  function TotalOf(h: History): nat {
    if h == [] then 0 else TotalOf(h[..|h| - 1]) + h[|h| - 1].1
  }

  /** What has been added to one counter. */
  ghost function Weight(h: History, digest: string -> (nat, nat), row: nat, slot: nat, width: nat): nat
    requires width > 0
  {
    if h == [] then 0 else
      var (item, count) := h[|h| - 1];
      Weight(h[..|h| - 1], digest, row, slot, width) + if Slot(digest, item, row, width) == slot then count else 0
  }

  /** A counter holds at least the count of every item that maps to it, and at most everything. */
  lemma {:induction false} WeightCovers(h: History, digest: string -> (nat, nat), row: nat, item: string, width: nat)
    requires width > 0
    ensures CountOf(h, item) <= Weight(h, digest, row, Slot(digest, item, row, width), width) <= TotalOf(h)
  {
    if h != [] {
      WeightCovers(h[..|h| - 1], digest, row, item, width);
    }
  }

  lemma WeightSnoc(h: History, item: string, count: nat, digest: string -> (nat, nat), width: nat)
    requires width > 0
    ensures forall r, s {:trigger Weight(h + [(item, count)], digest, r, s, width)} ::
              Weight(h + [(item, count)], digest, r, s, width) ==
                  Weight(h, digest, r, s, width) + if Slot(digest, item, r, width) == s then count else 0
    ensures TotalOf(h + [(item, count)]) == TotalOf(h) + count
  {
    var more := h + [(item, count)];
    assert more[..|h|] == h;
  }

  lemma {:induction false} WeightConcat(a: History, b: History, digest: string -> (nat, nat), row: nat, slot: nat,
                                        width: nat)
    requires width > 0
    ensures Weight(a + b, digest, row, slot, width) ==
            Weight(a, digest, row, slot, width) + Weight(b, digest, row, slot, width)
  {
    if b == [] {
      assert a + b == a;
    } else {
      assert (a + b)[..|a + b| - 1] == a + b[..|b| - 1];
      WeightConcat(a, b[..|b| - 1], digest, row, slot, width);
    }
  }

  lemma {:induction false} TotalConcat(a: History, b: History)
    ensures TotalOf(a + b) == TotalOf(a) + TotalOf(b)
  {
    if b == [] {
      assert a + b == a;
    } else {
      assert (a + b)[..|a + b| - 1] == a + b[..|b| - 1];
      TotalConcat(a, b[..|b| - 1]);
    }
  }

  /** The least of an item's counters. */
  ghost predicate IsEstimate(h: History, digest: string -> (nat, nat), item: string, depth: nat, width: nat, e: nat)
    requires width > 0
  {
    && (exists r :: 0 <= r < depth && e == Weight(h, digest, r, Slot(digest, item, r, width), width))
    && (forall r :: 0 <= r < depth ==> e <= Weight(h, digest, r, Slot(digest, item, r, width), width))
  }

  /** An estimate never undercounts and never exceeds everything that was added. */
  lemma EstimateNeverUndercounts(h: History, digest: string -> (nat, nat), item: string, depth: nat, width: nat, e: nat)
    requires width > 0 && IsEstimate(h, digest, item, depth, width, e)
    ensures CountOf(h, item) <= e <= TotalOf(h)
  {
    var r :| 0 <= r < depth && e == Weight(h, digest, r, Slot(digest, item, r, width), width);
    WeightCovers(h, digest, r, item, width);
  }

  /** More additions never lower an estimate; additions of the item itself raise it by their count. */
  lemma EstimateGrows(h: History, digest: string -> (nat, nat), item: string, depth: nat, width: nat, e: nat,
                      added: (string, nat), e': nat)
    requires width > 0 && IsEstimate(h, digest, item, depth, width, e) &&
             IsEstimate(h + [added], digest, item, depth, width, e')
    ensures e' >= e + (if added.0 == item then added.1 else 0)
  {
    var r :| 0 <= r < depth && e' == Weight(h + [added], digest, r, Slot(digest, item, r, width), width);
    assert (h + [added])[..|h|] == h;
    assert e <= Weight(h, digest, r, Slot(digest, item, r, width), width);
  }

  class Sketch {
    const width: nat
    const depth: nat
    const digest: string -> (nat, nat)
    const rows: array2<nat>
    var total: nat
    ghost var history: History

    ghost predicate Valid()
      reads this, rows
    {
      && width > 0 && depth > 0 && rows.Length0 == depth && rows.Length1 == width
      && (forall r, s :: 0 <= r < depth && 0 <= s < width ==> rows[r, s] == Weight(history, digest, r, s, width))
      && total == TotalOf(history)
    }

    constructor (width: nat, depth: nat, digest: string -> (nat, nat))
      requires width > 0 && depth > 0
      ensures Valid() && history == [] && fresh(rows)
      ensures this.width == width && this.depth == depth && this.digest == digest
    {
      this.width, this.depth, this.digest, total, history := width, depth, digest, 0, [];
      rows := new nat[depth, width]((r, s) => 0);
    }

    /** One counter per row goes up. */
    method Add(item: string, count: int) returns (r: Result<()>)
      requires Valid()
      modifies this, rows
      ensures Valid() && (r.Invalid? <==> count <= 0)
      ensures history == if count <= 0 then old(history) else old(history) + [(item, count)]
    {
      if count <= 0 {
        return Invalid;
      }
      ghost var more := history + [(item, count as nat)];
      ghost var now := total + count;
      assert more[..|history|] == history;
      WeightSnoc(history, item, count, digest, width);
      hide Slot, Weight, TotalOf;
      for row := 0 to depth
        invariant forall r, s {:trigger rows[r, s]} :: 0 <= r < row && 0 <= s < width ==>
                    rows[r, s] == Weight(more, digest, r, s, width)
        invariant forall r, s {:trigger rows[r, s]} :: row <= r < depth && 0 <= s < width ==>
                    rows[r, s] == Weight(history, digest, r, s, width)
        invariant total == old(total) && history == old(history)
      {
        var slot := Slot(digest, item, row, width);
        rows[row, slot] := rows[row, slot] + count;
      }
      total := total + count;
      history := more;
      return Ok(());
    }

    method Estimate(item: string) returns (e: nat)
      requires Valid()
      ensures IsEstimate(history, digest, item, depth, width, e)
      ensures CountOf(history, item) <= e <= total
    {
      hide Slot, Weight;
      e := rows[0, Slot(digest, item, 0, width)];
      for row := 1 to depth
        invariant exists r :: 0 <= r < depth && e == Weight(history, digest, r, Slot(digest, item, r, width), width)
        invariant forall r :: 0 <= r < row ==> e <= Weight(history, digest, r, Slot(digest, item, r, width), width)
      {
        var other := rows[row, Slot(digest, item, row, width)];
        if other < e {
          e := other;
        }
      }
      EstimateNeverUndercounts(history, digest, item, depth, width, e);
    }

    /** Add another sketch counter by counter: the result is the sketch of both streams. A sketch is
        not merged into itself, nor with one of another shape. */
    method Merge(other: Sketch) returns (r: Result<()>)
      requires Valid() && other.Valid() && (other != this ==> other.rows != rows) && other.digest == digest
      modifies this, rows
      ensures Valid() && (r.Ok? <==> other != this && other.width == width && other.depth == depth)
      ensures r.Ok? ==> history == old(history) + other.history
      ensures r.Invalid? ==> history == old(history)
    {
      if other == this || other.width != width || other.depth != depth {
        return Invalid;
      }
      ghost var both := history + other.history;
      TotalConcat(history, other.history);
      forall r, s ensures Weight(both, digest, r, s, width) ==
             Weight(history, digest, r, s, width) + Weight(other.history, digest, r, s, width) {
        WeightConcat(history, other.history, digest, r, s, width);
      }
      hide Weight, Slot, TotalOf;
      for row := 0 to depth
        invariant other.Valid() && total == old(total) && history == old(history)
        invariant forall r, s {:trigger rows[r, s]} :: 0 <= r < row && 0 <= s < width ==>
                    rows[r, s] == Weight(both, digest, r, s, width)
        invariant forall r, s {:trigger rows[r, s]} :: row <= r < depth && 0 <= s < width ==>
                    rows[r, s] == Weight(history, digest, r, s, width)
      {
        MergeRow(other, row);
      }
      total := total + other.total;
      history := both;
      return Ok(());
    }

    /** Add one row of another sketch to the same row of this one. */
    method MergeRow(other: Sketch, row: nat)
      requires other.rows != rows && row < depth && rows.Length0 == other.rows.Length0 == depth &&
               rows.Length1 == other.rows.Length1 == width
      modifies rows
      ensures forall s {:trigger rows[row, s]} :: 0 <= s < width ==>
                rows[row, s] == old(rows[row, s]) + other.rows[row, s]
      ensures forall r, s {:trigger rows[r, s]} :: 0 <= r < depth && r != row && 0 <= s < width ==>
                rows[r, s] == old(rows[r, s])
    {
      for slot := 0 to width
        invariant forall s {:trigger rows[row, s]} :: 0 <= s < slot ==>
                    rows[row, s] == old(rows[row, s]) + other.rows[row, s]
        invariant forall s {:trigger rows[row, s]} :: slot <= s < width ==> rows[row, s] == old(rows[row, s])
        invariant forall r, s {:trigger rows[r, s]} :: 0 <= r < depth && r != row && 0 <= s < width ==>
                    rows[r, s] == old(rows[r, s])
      {
        rows[row, slot] := rows[row, slot] + other.rows[row, slot];
      }
    }
  }
}
