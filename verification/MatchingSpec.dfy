/** What price-time priority means: a sweep of the opposite side's orders in priority order. */
module MatchingSpec {
  import opened Wrappers

  datatype Side = Buy | Sell

  datatype TimeInForce = Gtc | Ioc

  datatype Status = New | PartiallyFilled | Filled | Cancelled | Rejected

  datatype Reason = TooLarge | TooManyOpen | OutsideCollar

  /** `price` is in ticks; a market order has none. `sequence` is the order's time priority. */
  datatype Order = Order(id: string, account: string, side: Side, quantity: nat, price: Option<int>, tif: TimeInForce,
                         sequence: nat, remaining: nat, status: Status, reason: Option<Reason>)

  datatype TradeId = TradeId(symbol: string, sequence: nat, number: nat)

  datatype Trade = Trade(id: TradeId, symbol: string, price: int, quantity: nat, buyId: string, sellId: string,
                         aggressor: Side, sequence: nat)

  type Orders = map<string, Order>

  function Opposite(side: Side): Side {
    if side == Buy then Sell else Buy
  }

  predicate IsLive(o: Order) {
    o.remaining > 0 && o.status != Cancelled
  }

  /** Heap keys: bid prices are negated, so the best price of either side has the least key. */
  function Key(side: Side, price: int): int {
    if side == Buy then -price else price
  }

  function PriceOf(o: Order): int {
    if o.price.Some? then o.price.value else 0
  }

  predicate Crosses(taker: Order, best: int) {
    taker.price.None? || (if taker.side == Buy then taker.price.value >= best else taker.price.value <= best)
  }

  /** Better price first, then lower sequence. */
  predicate Before(a: Order, b: Order) {
    var x, y := Key(a.side, PriceOf(a)), Key(b.side, PriceOf(b));
    x < y || (x == y && a.sequence < b.sequence)
  }

  ghost predicate InPriority(q: seq<Order>) {
    forall i, j :: 0 <= i < j < |q| ==> Before(q[i], q[j])
  }

  /** `q` is one side of the book: its resting orders, best first. */
  ghost predicate IsQueue(orders: Orders, resting: set<string>, side: Side, q: seq<Order>) {
    && InPriority(q)
    && forall o :: o in q <==> o.id in resting && o.id in orders && orders[o.id] == o && o.side == side
  }

  /** Priority leaves no choice: the resting orders determine the queue. */
  lemma {:induction false} PriorityIsUnique(p: seq<Order>, q: seq<Order>)
    requires InPriority(p) && InPriority(q) && forall o :: o in p <==> o in q
    ensures p == q
    decreases |p|
  {
    BothEmpty(p, q);
    if p != [] {
      assert p[0] in q;
      var i :| 0 <= i < |q| && q[i] == p[0];
      assert q[0] in p;
      var j :| 0 <= j < |p| && p[j] == q[0];
      assert i == 0;
      forall o ensures o in p[1..] <==> o in q[1..] {
        WithoutFirst(p, o);
        WithoutFirst(q, o);
      }
      PriorityIsUnique(p[1..], q[1..]);
      assert p == [p[0]] + p[1..] && q == [q[0]] + q[1..];
    }
  }

  lemma BothEmpty(p: seq<Order>, q: seq<Order>)
    requires forall o :: o in p <==> o in q
    ensures p == [] <==> q == []
  {
    assert p != [] ==> p[0] in p;
    assert q != [] ==> q[0] in q;
  }

  lemma WithoutFirst(q: seq<Order>, o: Order)
    requires InPriority(q) && q != []
    ensures o in q[1..] <==> o in q && o != q[0]
  {
    if o in q && o != q[0] {
      var i :| 0 <= i < |q| && q[i] == o;
      assert q[1..][i - 1] == o;
    }
  }

  lemma QueueIsUnique(orders: Orders, resting: set<string>, side: Side, p: seq<Order>, q: seq<Order>)
    requires IsQueue(orders, resting, side, p) && IsQueue(orders, resting, side, q)
    ensures p == q
  {
    assert forall o :: o in p <==> o in q;
    PriorityIsUnique(p, q);
  }

  // ---------------------------------------------------------------- the sweep

  datatype Fill = Fill(maker: string, price: int, quantity: nat)

  datatype Outcome = Outcome(fills: seq<Fill>, left: nat, queue: seq<Order>)

  function Min(a: nat, b: nat): nat {
    if a <= b then a else b
  }

  function FillOne(o: Order, quantity: nat): Order
    requires quantity <= o.remaining
  {
    o.(remaining := o.remaining - quantity, status := if quantity == o.remaining then Filled else PartiallyFilled)
  }

  /** The queue after its head traded `quantity`. */
  function AfterHead(q: seq<Order>, quantity: nat): seq<Order>
    requires q != [] && quantity <= q[0].remaining
  {
    if quantity == q[0].remaining then q[1..] else [FillOne(q[0], quantity)] + q[1..]
  }

  ghost predicate AllLive(q: seq<Order>) {
    forall i :: 0 <= i < |q| ==> IsLive(q[i])
  }

  lemma AfterHeadIsLive(q: seq<Order>, quantity: nat)
    requires q != [] && quantity <= q[0].remaining && AllLive(q)
    ensures AllLive(AfterHead(q, quantity))
  {
  }

  /** Fill the best order of the queue, over and over, while the taker wants more and its price allows. */
  ghost function Sweep(q: seq<Order>, left: nat, taker: Order): (r: Outcome)
    requires AllLive(q)
    ensures AllLive(r.queue)
    decreases left
  {
    if left == 0 || q == [] || !Crosses(taker, PriceOf(q[0])) then Outcome([], left, q) else
      var take := Min(left, q[0].remaining);
      AfterHeadIsLive(q, take);
      var r := Sweep(AfterHead(q, take), left - take, taker);
      Outcome([Fill(q[0].id, PriceOf(q[0]), take)] + r.fills, r.left, r.queue)
  }

  ghost function Total(fills: seq<Fill>): nat {
    if fills == [] then 0 else fills[0].quantity + Total(fills[1..])
  }

  /** The fills are the first orders of the queue, in order, each at the maker's own price and in
      full; only the last may be partial, and only when nothing is left to fill. */
  ghost predicate FilledInOrder(q: seq<Order>, fills: seq<Fill>, left: nat, taker: Order) {
    && |fills| <= |q|
    && forall i {:trigger fills[i]} :: 0 <= i < |fills| ==>
         && fills[i].maker == q[i].id && fills[i].price == PriceOf(q[i]) && Crosses(taker, PriceOf(q[i]))
         && 0 < fills[i].quantity <= q[i].remaining
         && (i < |fills| - 1 || left > 0 ==> fills[i].quantity == q[i].remaining)
  }

  /** What the sweep leaves: the queue behind the fills, or that with a partly filled head. */
  ghost predicate IsRest(q: seq<Order>, fills: seq<Fill>, left: nat, rest: seq<Order>)
    requires |fills| <= |q|
  {
    var n := |fills|;
    || rest == q[n..]
    || (n > 0 && left == 0 && fills[n - 1].quantity < q[n - 1].remaining
        && rest == [FillOne(q[n - 1], fills[n - 1].quantity)] + q[n..])
  }

  /** No order is passed over, and nothing that crosses is left behind. */
  lemma {:induction false} SweepKeepsPriority(q: seq<Order>, left: nat, taker: Order)
    requires AllLive(q)
    ensures var r := Sweep(q, left, taker);
            && left == r.left + Total(r.fills)
            && FilledInOrder(q, r.fills, r.left, taker)
            && IsRest(q, r.fills, r.left, r.queue)
            && (r.left > 0 && r.queue != [] ==> !Crosses(taker, PriceOf(r.queue[0])))
    decreases left
  {
    if left > 0 && q != [] && Crosses(taker, PriceOf(q[0])) {
      var take := Min(left, q[0].remaining);
      var rest := AfterHead(q, take);
      SweepStep(q, left, taker, take);
      var r := Sweep(rest, left - take, taker);
      var fill := Fill(q[0].id, PriceOf(q[0]), take);
      var fills := [fill] + r.fills;
      assert fills[1..] == r.fills;
      if take == left {
        assert r == Outcome([], 0, rest);
      } else {
        SweepKeepsPriority(q[1..], left - take, taker);
        hide Sweep, Crosses;
        OneMoreFill(q, fill, r.fills, r.left, taker, r.queue);
      }
    }
  }

  lemma OneMoreFill(q: seq<Order>, fill: Fill, fills: seq<Fill>, left: nat, taker: Order, rest: seq<Order>)
    requires q != [] && FilledInOrder(q[1..], fills, left, taker) && IsRest(q[1..], fills, left, rest)
    requires fill == Fill(q[0].id, PriceOf(q[0]), q[0].remaining) && q[0].remaining > 0 && Crosses(taker, PriceOf(q[0]))
    ensures FilledInOrder(q, [fill] + fills, left, taker) && IsRest(q, [fill] + fills, left, rest)
  {
    var n := |fills|;
    var more := [fill] + fills;
    assert q[1..][n..] == q[n + 1..];
    assert n > 0 ==> q[1..][n - 1] == q[n] && more[n] == fills[n - 1];
    forall i {:trigger more[i]} | 0 <= i <= n
      ensures more[i].maker == q[i].id && more[i].price == PriceOf(q[i]) && Crosses(taker, PriceOf(q[i]))
      ensures 0 < more[i].quantity <= q[i].remaining && (i < n || left > 0 ==> more[i].quantity == q[i].remaining)
    {
      if i > 0 {
        assert more[i] == fills[i - 1] && q[1..][i - 1] == q[i];
      }
    }
  }

  /** When the taker is left with a rest, no resting order on the other side would trade with it. */
  lemma NothingCrossesTheRest(q: seq<Order>, left: nat, taker: Order, side: Side)
    requires AllLive(q) && InPriority(q) && (forall o :: o in q ==> o.side == side) && side == Opposite(taker.side)
    ensures var r := Sweep(q, left, taker); r.left > 0 ==> forall o :: o in r.queue ==> !Crosses(taker, PriceOf(o))
  {
    SweepKeepsPriority(q, left, taker);
    var r := Sweep(q, left, taker);
    var n := |r.fills|;
    if r.left > 0 {
      assert r.queue == q[n..];
      forall i | 0 <= i < |r.queue| ensures !Crosses(taker, PriceOf(r.queue[i])) {
        if i > 0 {
          assert Before(q[n], q[n + i]) && q[n] in q && q[n + i] in q;
        }
      }
    }
  }

  /** One turn of the sweep. */
  lemma SweepStep(q: seq<Order>, left: nat, taker: Order, take: nat)
    requires AllLive(q) && left > 0 && q != [] && Crosses(taker, PriceOf(q[0])) && take == Min(left, q[0].remaining)
    ensures AllLive(AfterHead(q, take)) && 0 < take <= left
    ensures Sweep(q, left, taker) == Preceded(Fill(q[0].id, PriceOf(q[0]), take),
                                              Sweep(AfterHead(q, take), left - take, taker))
  {
    AfterHeadIsLive(q, take);
  }

  ghost function Preceded(fill: Fill, r: Outcome): Outcome {
    Outcome([fill] + r.fills, r.left, r.queue)
  }

  ghost function Extended(fills: seq<Fill>, r: Outcome): Outcome {
    Outcome(fills + r.fills, r.left, r.queue)
  }

  lemma ExtendOne(fills: seq<Fill>, fill: Fill, r: Outcome)
    ensures Extended(fills, Preceded(fill, r)) == Extended(fills + [fill], r)
  {
    assert fills + ([fill] + r.fills) == (fills + [fill]) + r.fills;
  }

  /** The order table after these fills of its makers. */
  ghost function AfterFills(orders: Orders, fills: seq<Fill>): (r: Orders)
    ensures r.Keys == orders.Keys
  {
    if fills == [] then orders else
      var k := |fills| - 1;
      var before, f := AfterFills(orders, fills[..k]), fills[k];
      if f.maker in before && f.quantity <= before[f.maker].remaining
      then before[f.maker := FillOne(before[f.maker], f.quantity)] else before
  }

  function TradeOf(symbol: string, taker: Order, fill: Fill, number: nat): Trade {
    Trade(TradeId(symbol, taker.sequence, number), symbol, fill.price, fill.quantity,
          if taker.side == Buy then taker.id else fill.maker, if taker.side == Buy then fill.maker else taker.id,
          taker.side, taker.sequence)
  }

  function TradesOf(symbol: string, taker: Order, fills: seq<Fill>): seq<Trade> {
    seq(|fills|, i requires 0 <= i < |fills| => TradeOf(symbol, taker, fills[i], i + 1))
  }
}
