/** The engine around the book: risk checks, trades, open-order counts and replay. */
module MatchingEngine {
  import opened MatchingSpec
  import opened OrderBook
  import opened Wrappers

  datatype Command = NewOrder(id: string, account: string, side: Side, quantity: nat, price: Option<int>,
                              tif: TimeInForce)
                   | CancelOrder(id: string)

  datatype RiskLimits = RiskLimits(maxOrderQuantity: int, priceBandBps: int, maxOpenOrders: int)

  type Journal = seq<(nat, Command)>

  /** Everything a client can see of the engine; the levels and heaps are not part of it. */
  datatype View = View(orders: Orders, resting: set<string>, trades: seq<Trade>, lastPrice: Option<int>,
                       open: map<string, int>)

  const EMPTY: View := View(map[], {}, [], None, map[])

  /** What `NewOrder` itself enforces. */
  predicate ValidCommand(c: Command) {
    c.NewOrder? ==> c.quantity > 0 && (c.price.Some? ==> c.price.value > 0)
  }

  function OrderOf(sequence: nat, c: Command): Order
    requires c.NewOrder?
  {
    Order(c.id, c.account, c.side, c.quantity, c.price, c.tif, sequence, c.quantity, New, None)
  }

  function Open(open: map<string, int>, account: string): int {
    if account in open then open[account] else 0
  }

  function RiskReason(limits: RiskLimits, open: map<string, int>, lastPrice: Option<int>, o: Order): Option<Reason> {
    if o.quantity > limits.maxOrderQuantity then Some(TooLarge)
    else if Open(open, o.account) >= limits.maxOpenOrders then Some(TooManyOpen)
    else if o.price.Some? && lastPrice.Some? then
      var band := lastPrice.value * limits.priceBandBps / 10_000;
      if lastPrice.value - band <= o.price.value <= lastPrice.value + band then None else Some(OutsideCollar)
    else None
  }

  // ---------------------------------------------------------------- one command, as a relation between views

  /** Each fully filled maker frees one of its account's open orders. */
  function Released(open: map<string, int>, orders: Orders, fills: seq<Fill>): map<string, int> {
    if fills == [] then open else
      var k := |fills| - 1;
      var before, m := Released(open, orders, fills[..k]), fills[k].maker;
      if m in orders && orders[m].status == Filled then before[orders[m].account := Open(before, orders[m].account) - 1]
         else before
  }

  /** The taker's order once its sweep is over. */
  function Settled(o: Order, left: nat, traded: bool): Order {
    o.(remaining := left,
       status := if left == 0 then Filled
                 else if o.price.None? || o.tif == Ioc then Cancelled
                 else if traded then PartiallyFilled else New)
  }

  predicate Rests(o: Order, left: nat) {
    left > 0 && o.price.Some? && o.tif == Gtc
  }

  /** The view after an accepted order was matched with outcome `r`. */
  ghost function Matched(symbol: string, v: View, o: Order, r: Outcome): View {
    var orders := AfterFills(v.orders[o.id := o], r.fills)[o.id := Settled(o, r.left, r.fills != [])];
    var open := Released(v.open, AfterFills(v.orders[o.id := o], r.fills)[o.id := o.(remaining := r.left)], r.fills);
    var still := StillLive(v.resting, orders);
    View(orders, if Rests(o, r.left) then still + {o.id} else still,
         v.trades + TradesOf(symbol, o, r.fills),
         if r.fills == [] then v.lastPrice else Some(r.fills[|r.fills| - 1].price),
         if Rests(o, r.left) then open[o.account := Open(open, o.account) + 1] else open)
  }

  /** The view after a new order met the queue `q` of the other side. */
  ghost function Accepted(symbol: string, limits: RiskLimits, v: View, o: Order, q: seq<Order>): View
    requires AllLive(q)
  {
    var reason := RiskReason(limits, v.open, v.lastPrice, o);
    if reason.Some? then
      v.(orders := v.orders[o.id := o.(status := Rejected, reason := reason)])
    else
      Matched(symbol, v, o, Sweep(q, o.remaining, o))
  }

  ghost function CancelledView(v: View, id: string): View
    requires id in v.orders
  {
    var o := v.orders[id];
    v.(orders := v.orders[id := o.(status := Cancelled)], resting := v.resting - {id},
       open := v.open[o.account := Open(v.open, o.account) - 1])
  }

  ghost predicate Applied(symbol: string, limits: RiskLimits, v: View, sequence: nat, c: Command, w: View) {
    match c
    case CancelOrder(id) => id in v.resting && id in v.orders && w == CancelledView(v, id)
    case NewOrder(_, _, side, _, _, _) =>
      exists q :: IsQueue(v.orders, v.resting, Opposite(side), q) && AllLive(q) &&
        w == Accepted(symbol, limits, v, OrderOf(sequence, c), q)
  }

  /** A command has one possible outcome. */
  lemma AppliedOnce(symbol: string, limits: RiskLimits, v: View, sequence: nat, c: Command, w: View, x: View)
    requires Applied(symbol, limits, v, sequence, c, w) && Applied(symbol, limits, v, sequence, c, x)
    ensures w == x
  {
    hide Accepted, IsQueue;
    if c.NewOrder? {
      var p :| IsQueue(v.orders, v.resting, Opposite(c.side), p) && AllLive(p) &&
          w == Accepted(symbol, limits, v, OrderOf(sequence, c), p);
      var q :| IsQueue(v.orders, v.resting, Opposite(c.side), q) && AllLive(q) &&
          x == Accepted(symbol, limits, v, OrderOf(sequence, c), q);
      QueueIsUnique(v.orders, v.resting, Opposite(c.side), p, q);
    }
  }

  /** The view a journal leads to, if every command in it goes through. */
  ghost predicate Reached(symbol: string, limits: RiskLimits, journal: Journal, v: View)
    decreases |journal|
  {
    if journal == [] then v == EMPTY else
      var n := |journal| - 1;
      exists u :: Reached(symbol, limits, journal[..n], u) && Applied(symbol, limits, u, journal[n].0, journal[n].1, v)
  }

  /** Same journal, same output. */
  lemma {:induction false} ReachedOnce(symbol: string, limits: RiskLimits, journal: Journal, v: View, w: View)
    requires Reached(symbol, limits, journal, v) && Reached(symbol, limits, journal, w)
    ensures v == w
    decreases |journal|
  {
    hide Applied;
    if journal != [] {
      var n := |journal| - 1;
      var a :| Reached(symbol, limits, journal[..n], a) && Applied(symbol, limits, a, journal[n].0, journal[n].1, v);
      var b :| Reached(symbol, limits, journal[..n], b) && Applied(symbol, limits, b, journal[n].0, journal[n].1, w);
      ReachedOnce(symbol, limits, journal[..n], a, b);
      AppliedOnce(symbol, limits, a, journal[n].0, journal[n].1, v, w);
    }
  }

  /** A journal with a cancel that failed leads nowhere: replaying it stops with the same error. */
  lemma FailedCancelBlocksReplay(symbol: string, limits: RiskLimits, id: string, sequence: nat)
    ensures forall v :: !Reached(symbol, limits, [(sequence, CancelOrder(id))], v)
  {
    var journal: Journal := [(sequence, CancelOrder(id))];
    forall v ensures !Reached(symbol, limits, journal, v) {
      assert journal[..0] == [];
    }
  }

  // ---------------------------------------------------------------- what holds in every reachable view

  /** How much of an order has traded. */
  function Traded(trades: seq<Trade>, id: string): nat {
    if trades == [] then 0 else
      var t := trades[|trades| - 1];
      Traded(trades[..|trades| - 1], id) + if t.buyId == id || t.sellId == id then t.quantity else 0
  }

  /** Quantity is conserved: what an order wanted is what is left of it plus what it traded. */
  ghost predicate Conserved(v: View) {
    && (forall id :: id in v.orders ==> v.orders[id].quantity == v.orders[id].remaining + Traded(v.trades, id))
    && (forall id :: id !in v.orders ==> Traded(v.trades, id) == 0)
  }

  /** Every resting bid is strictly below every resting ask. */
  ghost predicate Uncrossed(orders: Orders, resting: set<string>) {
    forall b, a ::
      b in resting && a in resting && b in orders && a in orders && orders[b].side == Buy && orders[a].side == Sell ==>
      PriceOf(orders[b]) < PriceOf(orders[a])
  }

  ghost function RestingOf(orders: Orders, resting: set<string>, account: string): set<string> {
    set id | id in resting && id in orders && orders[id].account == account
  }

  /** The open count of an account is the number of its orders on the book. */
  ghost predicate Counted(open: map<string, int>, orders: Orders, resting: set<string>) {
    forall account :: Open(open, account) == |RestingOf(orders, resting, account)|
  }

  ghost predicate Sane(v: View, lastSequence: nat) {
    && Named(v.orders)
    && (forall id :: id in v.resting ==> id in v.orders && IsLive(v.orders[id]) && v.orders[id].price.Some?)
    && (forall id :: id in v.orders ==>
          v.orders[id].sequence <= lastSequence && v.orders[id].remaining <= v.orders[id].quantity)
    && Conserved(v) && Uncrossed(v.orders, v.resting) && Counted(v.open, v.orders, v.resting)
  }

  // ---------------------------------------------------------------- sums over fills

  ghost function MadeBy(fills: seq<Fill>, id: string): nat {
    if fills == [] then 0 else
      var k := |fills| - 1;
      MadeBy(fills[..k], id) + if fills[k].maker == id then fills[k].quantity else 0
  }

  /** No maker appears twice in one sweep, and none gives more than it has. */
  ghost predicate Sound(orders: Orders, fills: seq<Fill>) {
    && (forall i, j :: 0 <= i < j < |fills| ==> fills[i].maker != fills[j].maker)
    && (forall i {:trigger fills[i]} :: 0 <= i < |fills| ==>
          fills[i].maker in orders && 0 < fills[i].quantity <= orders[fills[i].maker].remaining)
  }

  lemma SweepIsSound(orders: Orders, resting: set<string>, side: Side, q: seq<Order>, left: nat, taker: Order)
    requires IsQueue(orders, resting, side, q) && AllLive(q) && Named(orders)
    ensures Sound(orders, Sweep(q, left, taker).fills)
    ensures forall f :: f in Sweep(q, left, taker).fills ==>
              f.maker in resting && f.maker in orders && orders[f.maker].side == side
    ensures Total(Sweep(q, left, taker).fills) + Sweep(q, left, taker).left == left
  {
    SweepKeepsPriority(q, left, taker);
    var fills := Sweep(q, left, taker).fills;
    hide Sweep, Crosses, Total;
    forall i {:trigger fills[i]} | 0 <= i < |fills|
      ensures q[i] in q && fills[i].maker == q[i].id && 0 < fills[i].quantity <= q[i].remaining
    {
    }
    SoundFills(orders, resting, side, q, fills);
  }

  lemma SoundFills(orders: Orders, resting: set<string>, side: Side, q: seq<Order>, fills: seq<Fill>)
    requires IsQueue(orders, resting, side, q) && Named(orders) && |fills| <= |q|
    requires forall i {:trigger fills[i]} :: 0 <= i < |fills| ==>
               q[i] in q && fills[i].maker == q[i].id && 0 < fills[i].quantity <= q[i].remaining
    ensures Sound(orders, fills)
    ensures forall f :: f in fills ==> f.maker in resting && f.maker in orders && orders[f.maker].side == side
  {
    forall i, j | 0 <= i < j < |fills| ensures fills[i].maker != fills[j].maker {
      var x, y := fills[i], fills[j];
      DistinctInPriority(q, i, j);
    }
  }

  lemma DistinctInPriority(q: seq<Order>, i: nat, j: nat)
    requires InPriority(q) && i < j < |q|
    ensures q[i].id != q[j].id || q[i] != q[j]
  {
    assert Before(q[i], q[j]);
  }

  lemma {:induction false} MadeByNone(fills: seq<Fill>, id: string)
    requires forall i :: 0 <= i < |fills| ==> fills[i].maker != id
    ensures MadeBy(fills, id) == 0
  {
    if fills != [] {
      MadeByNone(fills[..|fills| - 1], id);
    }
  }

  /** The order table after a sweep, order by order. */
  lemma {:induction false} FillsClosedForm(orders: Orders, fills: seq<Fill>, id: string)
    requires Sound(orders, fills) && id in orders
    ensures MadeBy(fills, id) <= orders[id].remaining
    ensures AfterFills(orders, fills)[id] ==
            if MadeBy(fills, id) == 0 then orders[id] else FillOne(orders[id], MadeBy(fills, id))
    ensures MadeBy(fills, id) > 0 <==> exists i :: 0 <= i < |fills| && fills[i].maker == id
  {
    if fills != [] {
      var k := |fills| - 1;
      var before := fills[..k];
      forall i, j | 0 <= i < j < k ensures before[i].maker != before[j].maker {
        assert fills[i].maker != fills[j].maker;
      }
      forall i {:trigger before[i]} | 0 <= i < k
        ensures before[i].maker in orders && 0 < before[i].quantity <= orders[before[i].maker].remaining {
        assert before[i] == fills[i];
      }
      FillsClosedForm(orders, before, id);
      FillsClosedForm(orders, before, fills[k].maker);
      forall i | 0 <= i < k ensures before[i].maker != fills[k].maker {
        assert fills[i].maker != fills[k].maker;
      }
      MadeByNone(before, fills[k].maker);
      if MadeBy(before, id) > 0 {
        var i :| 0 <= i < k && before[i].maker == id;
        assert fills[i].maker == id;
      }
      if i :| 0 <= i < |fills| && fills[i].maker == id {
        assert i < k ==> before[i].maker == id;
      }
    }
  }

  lemma {:induction false} TotalSnoc(fills: seq<Fill>, f: Fill)
    ensures Total(fills + [f]) == Total(fills) + f.quantity
  {
    if fills == [] {
      assert [f][1..] == [];
    } else {
      assert (fills + [f])[1..] == fills[1..] + [f];
      TotalSnoc(fills[1..], f);
    }
  }

  /** The trades of a sweep add the fills to both sides' totals. */
  lemma {:induction false} TradedSweep(trades: seq<Trade>, symbol: string, taker: Order, fills: seq<Fill>, id: string)
    requires forall i :: 0 <= i < |fills| ==> fills[i].maker != taker.id
    ensures Traded(trades + TradesOf(symbol, taker, fills), id) == Traded(trades, id) + if id == taker.id
            then Total(fills) else MadeBy(fills, id)
  {
    hide *;
    SumsUnfold(symbol, taker, fills, id);
    if fills == [] {
      assert trades + [] == trades;
    } else {
      var k := |fills| - 1;
      TradedSweep(trades, symbol, taker, fills[..k], id);
      var t, less := TradeOf(symbol, taker, fills[k], k + 1), TradesOf(symbol, taker, fills[..k]);
      TradedSnoc(trades + less, t, id);
      assert trades + (less + [t]) == (trades + less) + [t];
    }
  }

  /** The sums over a sweep, one fill at a time. */
  lemma SumsUnfold(symbol: string, taker: Order, fills: seq<Fill>, id: string)
    ensures fills == [] ==> TradesOf(symbol, taker, fills) == [] && Total(fills) == 0 && MadeBy(fills, id) == 0
    ensures fills != [] ==>
              var k := |fills| - 1; var t := TradeOf(symbol, taker, fills[k], k + 1);
              && TradesOf(symbol, taker, fills) == TradesOf(symbol, taker, fills[..k]) + [t]
              && Total(fills) == Total(fills[..k]) + fills[k].quantity
              && MadeBy(fills, id) == MadeBy(fills[..k], id) + (if fills[k].maker == id then fills[k].quantity else 0)
              && t.quantity == fills[k].quantity && (t.buyId == taker.id || t.sellId == taker.id) &&
                 (t.buyId == fills[k].maker || t.sellId == fills[k].maker)
              && (t.buyId == id || t.sellId == id <==> id == taker.id || id == fills[k].maker)
  {
    if fills != [] {
      var k := |fills| - 1;
      TotalSnoc(fills[..k], fills[k]);
      assert fills == fills[..k] + [fills[k]];
    }
  }

  lemma TradedSnoc(trades: seq<Trade>, t: Trade, id: string)
    ensures Traded(trades + [t], id) == Traded(trades, id) + if t.buyId == id || t.sellId == id then t.quantity else 0
  {
    assert (trades + [t])[..|trades|] == trades;
  }

  // ---------------------------------------------------------------- a sweep keeps every invariant

  /** The new order, on its way in. */
  ghost predicate Fresh(v: View, o: Order, lastSequence: nat) {
    && o.id !in v.orders && o.sequence > lastSequence && o.quantity == o.remaining > 0 && o.status == New
  }

  /** A new order meets the other side of a sane book. */
  ghost predicate Meets(v: View, o: Order, q: seq<Order>, lastSequence: nat) {
    Sane(v, lastSequence) && Fresh(v, o, lastSequence) && IsQueue(v.orders, v.resting, Opposite(o.side), q) &&
        AllLive(q)
  }

  /** The orders right after the sweep. */
  ghost function Swept(v: View, o: Order, r: Outcome): Orders {
    AfterFills(v.orders[o.id := o], r.fills)[o.id := Settled(o, r.left, r.fills != [])]
  }

  /** The fills of a sweep are with distinct resting orders of the other side, within their remaining quantity. */
  lemma SweepFills(v: View, o: Order, q: seq<Order>, lastSequence: nat)
    requires Meets(v, o, q, lastSequence)
    ensures var r := Sweep(q, o.remaining, o);
            && Sound(v.orders[o.id := o], r.fills) && Total(r.fills) + r.left == o.remaining
            && (forall i {:trigger r.fills[i]} :: 0 <= i < |r.fills| ==>
                  && r.fills[i].maker in v.resting && r.fills[i].maker in v.orders && r.fills[i].maker != o.id
                  && v.orders[r.fills[i].maker].side == Opposite(o.side))
            && MadeBy(r.fills, o.id) == 0
  {
    var side := Opposite(o.side);
    var r := Sweep(q, o.remaining, o);
    SweepIsSound(v.orders, v.resting, side, q, o.remaining, o);
    hide Sweep, IsQueue, Conserved, Uncrossed, Counted;
    var fills := r.fills;
    forall i {:trigger fills[i]} | 0 <= i < |fills|
      ensures fills[i].maker in v.resting && fills[i].maker in v.orders && fills[i].maker != o.id &&
              v.orders[fills[i].maker].side == side
    {
      assert fills[i] in fills;
    }
    hide Sane, Fresh, Sound;
    StillSound(v.orders, o, fills);
    MadeByNone(fills, o.id);
  }

  /** Order by order: makers gave what they traded, everyone else is untouched. */
  lemma SweptIs(v: View, o: Order, r: Outcome)
    ensures Swept(v, o, r) == AfterFills(v.orders[o.id := o], r.fills)[o.id := Settled(o, r.left, r.fills != [])]
    ensures AfterFills(v.orders[o.id := o], r.fills).Keys == v.orders.Keys + {o.id}
  {
    hide Settled;
  }

  lemma SweptOrder(v: View, o: Order, q: seq<Order>, id: string, lastSequence: nat)
    requires Meets(v, o, q, lastSequence)
    ensures var r := Sweep(q, o.remaining, o);
            && Swept(v, o, r).Keys == v.orders.Keys + {o.id}
            && Swept(v, o, r)[o.id] == Settled(o, r.left, r.fills != [])
            && (id in v.orders ==>
                  && MadeBy(r.fills, id) <= v.orders[id].remaining
                  && Swept(v, o, r)[id] == if MadeBy(r.fills, id) == 0 then v.orders[id]
                     else FillOne(v.orders[id], MadeBy(r.fills, id)))
            && (MadeBy(r.fills, id) > 0 <==> exists i :: 0 <= i < |r.fills| && r.fills[i].maker == id)
  {
    hide *;
    MeetsLive(v, o, q, lastSequence);
    FreshFacts(v, o, lastSequence);
    SweepFills(v, o, q, lastSequence);
    var r := Sweep(q, o.remaining, o);
    SweptIs(v, o, r);
    if id in v.orders {
      FillsClosedForm(v.orders[o.id := o], r.fills, id);
    } else {
      MadeByNone(r.fills, id);
    }
  }

  lemma StillSound(orders: Orders, o: Order, fills: seq<Fill>)
    requires Sound(orders, fills) && forall i :: 0 <= i < |fills| ==> fills[i].maker != o.id
    ensures Sound(orders[o.id := o], fills)
  {
  }

  lemma SweepConserves(symbol: string, v: View, o: Order, q: seq<Order>, lastSequence: nat, w: View)
    requires Meets(v, o, q, lastSequence)
    requires var r := Sweep(q, o.remaining, o);
             w.orders == Swept(v, o, r) && w.trades == v.trades + TradesOf(symbol, o, r.fills)
    ensures Conserved(w)
  {
    var r := Sweep(q, o.remaining, o);
    assert Traded(v.trades, o.id) == 0 && Conserved(v);
    SweepFills(v, o, q, lastSequence);
    hide Sweep, Sane, IsQueue, AllLive, Swept, Sound;
    forall id
      ensures id in w.orders ==> w.orders[id].quantity == w.orders[id].remaining + Traded(w.trades, id)
      ensures id !in w.orders ==> Traded(w.trades, id) == 0
    {
      SweptOrder(v, o, q, id, lastSequence);
      TradedSweep(v.trades, symbol, o, r.fills, id);
      if id !in v.orders {
        MadeByNone(r.fills, id);
      }
    }
  }

  /** A sweep takes every maker it filled off the book and nobody else. */
  lemma SweptResting(v: View, o: Order, q: seq<Order>, lastSequence: nat)
    requires Meets(v, o, q, lastSequence)
    ensures var r := Sweep(q, o.remaining, o);
            && StillLive(v.resting, Swept(v, o, r)) == v.resting - FilledMakers(Swept(v, o, r), r.fills)
            && FilledMakers(Swept(v, o, r), r.fills) <= v.resting
            && (forall id :: id in v.resting ==>
                  id in v.orders && id in Swept(v, o, r) && SameParty(v.orders[id], Swept(v, o, r)[id]))
  {
    var r := Sweep(q, o.remaining, o);
    var orders := Swept(v, o, r);
    SweepFills(v, o, q, lastSequence);
    assert forall id :: id in v.resting ==> id in v.orders && IsLive(v.orders[id]);
    hide Sweep, Meets, Swept, Sound, IsLive;
    forall id | id in v.resting
      ensures id in v.orders && id in orders && SameParty(v.orders[id], orders[id])
      ensures IsLive(orders[id]) <==> id !in FilledMakers(orders, r.fills)
    {
      SweptOrder(v, o, q, id, lastSequence);
      LiveOrFilled(v.orders[id], MadeBy(r.fills, id));
      InFilled(orders, r.fills, id);
    }
    forall id | id in FilledMakers(orders, r.fills) ensures id in v.resting {
      InFilled(orders, r.fills, id);
    }
  }

  lemma LiveOrFilled(o: Order, quantity: nat)
    requires IsLive(o) && 0 <= quantity <= o.remaining
    ensures quantity > 0 ==> (IsLive(FillOne(o, quantity)) <==> FillOne(o, quantity).status != Filled)
  {
  }

  lemma InFilled(orders: Orders, fills: seq<Fill>, id: string)
    ensures id in FilledMakers(orders, fills) <==>
            id in orders && orders[id].status == Filled && exists i :: 0 <= i < |fills| && fills[i].maker == id
  {
    if i :| 0 <= i < |fills| && fills[i].maker == id && id in orders && orders[id].status == Filled {
      assert fills[i] in fills;
    }
  }

  ghost function FilledMakers(orders: Orders, fills: seq<Fill>): set<string> {
    set f | f in fills && f.maker in orders && orders[f.maker].status == Filled :: f.maker
  }

  /** Trading changes neither whose order it is nor what it asks for. */
  ghost predicate SameParty(a: Order, b: Order) {
    b == a.(remaining := b.remaining, status := b.status)
  }

  lemma {:induction false} ReleasedCounts(open: map<string, int>, before: Orders, orders: Orders, resting: set<string>,
                                          fills: seq<Fill>, account: string)
    requires Open(open, account) == |RestingOf(before, resting, account)|
    requires forall i, j :: 0 <= i < j < |fills| ==> fills[i].maker != fills[j].maker
    requires forall i {:trigger fills[i]} :: 0 <= i < |fills| ==> fills[i].maker in resting
    requires forall id :: id in resting ==> id in before && id in orders && SameParty(before[id], orders[id])
    ensures Open(Released(open, orders, fills), account) ==
            |RestingOf(before, resting - FilledMakers(orders, fills), account)|
  {
    if fills == [] {
      assert resting - FilledMakers(orders, fills) == resting;
    } else {
      var k := |fills| - 1;
      var rest, m := fills[..k], fills[k].maker;
      forall i {:trigger rest[i]} | 0 <= i < k ensures rest[i].maker in resting && rest[i].maker != m {
        assert rest[i] == fills[i];
      }
      forall i, j | 0 <= i < j < k ensures rest[i].maker != rest[j].maker {
        assert fills[i].maker != fills[j].maker;
      }
      ReleasedCounts(open, before, orders, resting, rest, account);
      hide FilledMakers, RestingOf, SameParty;
      var gone := FilledMakers(orders, rest);
      OneMoreFilled(orders, fills);
      InFilled(orders, rest, m);
      if orders[m].status == Filled {
        OneLessResting(before, resting - gone, m, account);
        assert resting - (gone + {m}) == (resting - gone) - {m};
        assert before[m].account == orders[m].account by { PartyAccount(before[m], orders[m]); }
      }
    }
  }

  lemma PartyAccount(a: Order, b: Order)
    requires SameParty(a, b)
    ensures a.account == b.account
  {
  }

  lemma OneMoreFilled(orders: Orders, fills: seq<Fill>)
    requires fills != []
    ensures var k := |fills| - 1; var m := fills[k].maker;
            FilledMakers(orders, fills) ==
            if m in orders && orders[m].status == Filled then FilledMakers(orders, fills[..k]) + {m}
               else FilledMakers(orders, fills[..k])
  {
    var k := |fills| - 1;
    assert fills == fills[..k] + [fills[k]];
  }

  lemma OneLessResting(orders: Orders, resting: set<string>, id: string, account: string)
    requires id in orders && id in resting
    ensures |RestingOf(orders, resting - {id}, account)| ==
            |RestingOf(orders, resting, account)| - if orders[id].account == account then 1 else 0
  {
    OneMoreResting(orders, resting - {id}, id, account);
    assert resting - {id} + {id} == resting;
  }

  lemma SweepCounts(v: View, o: Order, q: seq<Order>, lastSequence: nat, matched: Orders, open: map<string, int>,
                    w: View)
    requires Meets(v, o, q, lastSequence)
    requires var r := Sweep(q, o.remaining, o);
             && matched == AfterFills(v.orders[o.id := o], r.fills)[o.id := o.(remaining := r.left)]
             && open == Released(v.open, matched, r.fills)
             && w.orders == Swept(v, o, r)
             && w.resting == (if Rests(o, r.left) then StillLive(v.resting, w.orders) + {o.id}
                              else StillLive(v.resting, w.orders))
             && w.open == (if Rests(o, r.left) then open[o.account := Open(open, o.account) + 1] else open)
    ensures Counted(w.open, w.orders, w.resting)
  {
    hide *;
    MeetsLive(v, o, q, lastSequence);
    var r := Sweep(q, o.remaining, o);
    SweptResting(v, o, q, lastSequence);
    SweptOrder(v, o, q, o.id, lastSequence);
    SweepFills(v, o, q, lastSequence);
    FreshFacts(v, o, lastSequence);
    SweptIs(v, o, r);
    SameReleased(v.open, matched, w.orders, r.fills, o.id);
    MakersApart(v.orders[o.id := o], r.fills);
    SettledParty(o, r.left, r.fills != []);
    CountsAgain(v, o, r, w, Released(v.open, w.orders, r.fills), lastSequence);
  }

  lemma CountsAgain(v: View, o: Order, r: Outcome, w: View, open: map<string, int>, lastSequence: nat)
    requires Sane(v, lastSequence) && o.id !in v.resting && open == Released(v.open, w.orders, r.fills)
    requires forall i, j :: 0 <= i < j < |r.fills| ==> r.fills[i].maker != r.fills[j].maker
    requires forall i {:trigger r.fills[i]} :: 0 <= i < |r.fills| ==> r.fills[i].maker in v.resting
    requires forall id :: id in v.resting ==> id in v.orders && id in w.orders && SameParty(v.orders[id], w.orders[id])
    requires o.id in w.orders && w.orders[o.id].account == o.account
    requires var still := v.resting - FilledMakers(w.orders, r.fills);
             w.resting == if Rests(o, r.left) then still + {o.id} else still
    requires w.open == if Rests(o, r.left) then open[o.account := Open(open, o.account) + 1] else open
    ensures Counted(w.open, w.orders, w.resting)
  {
    assert Counted(v.open, v.orders, v.resting);
    hide Released, FilledMakers, RestingOf, SameParty, Sane, Rests;
    var still := v.resting - FilledMakers(w.orders, r.fills);
    forall account ensures Open(w.open, account) == |RestingOf(w.orders, w.resting, account)| {
      ReleasedCounts(v.open, v.orders, w.orders, v.resting, r.fills, account);
      SameResting(v.orders, w.orders, still, account);
      if Rests(o, r.left) {
        OneMoreResting(w.orders, still, o.id, account);
      }
    }
  }

  lemma SettledParty(o: Order, left: nat, traded: bool)
    ensures Settled(o, left, traded).account == o.account
  {
  }

  lemma MakersApart(orders: Orders, fills: seq<Fill>)
    requires Sound(orders, fills)
    ensures forall i, j :: 0 <= i < j < |fills| ==> fills[i].maker != fills[j].maker
  {
  }

  lemma SameResting(a: Orders, b: Orders, resting: set<string>, account: string)
    requires forall id :: id in resting ==> id in a && id in b && SameParty(a[id], b[id])
    ensures RestingOf(a, resting, account) == RestingOf(b, resting, account)
  {
  }

  lemma OneMoreResting(orders: Orders, resting: set<string>, id: string, account: string)
    requires id in orders && id !in resting
    ensures |RestingOf(orders, resting + {id}, account)| ==
            |RestingOf(orders, resting, account)| + if orders[id].account == account then 1 else 0
  {
    if orders[id].account == account {
      assert RestingOf(orders, resting + {id}, account) == RestingOf(orders, resting, account) + {id};
    } else {
      assert RestingOf(orders, resting + {id}, account) == RestingOf(orders, resting, account);
    }
  }

  lemma {:induction false} SameReleased(open: map<string, int>, a: Orders, b: Orders, fills: seq<Fill>, except: string)
    requires a.Keys == b.Keys && forall id :: id in a && id != except ==> a[id] == b[id]
    requires forall i :: 0 <= i < |fills| ==> fills[i].maker != except
    ensures Released(open, a, fills) == Released(open, b, fills)
  {
    if fills != [] {
      SameReleased(open, a, b, fills[..|fills| - 1], except);
    }
  }

  /** Whatever rests next to what the sweep left behind does not cross it. */
  lemma SweepUncrosses(v: View, o: Order, q: seq<Order>, lastSequence: nat, w: View)
    requires Meets(v, o, q, lastSequence)
    requires var r := Sweep(q, o.remaining, o);
             && w.orders == Swept(v, o, r)
             && w.resting == (if Rests(o, r.left) then StillLive(v.resting, w.orders) + {o.id}
                              else StillLive(v.resting, w.orders))
    ensures Uncrossed(w.orders, w.resting)
  {
    var side := Opposite(o.side);
    var r := Sweep(q, o.remaining, o);
    SweptResting(v, o, q, lastSequence);
    SweptOrder(v, o, q, o.id, lastSequence);
    hide Swept, Conserved, Counted, StillLive, Settled;
    var still := v.resting - FilledMakers(w.orders, r.fills);
    forall b, a | b in w.resting && a in w.resting && b in w.orders && a in w.orders && w.orders[b].side == Buy &&
           w.orders[a].side == Sell
      ensures PriceOf(w.orders[b]) < PriceOf(w.orders[a])
    {
      if a == o.id || b == o.id {
        var m := if a == o.id then b else a;
        OppositeLeft(v, o, q, lastSequence, m);
        Settles(v, o, r);
      }
    }
  }

  lemma Settles(v: View, o: Order, r: Outcome)
    ensures Swept(v, o, r)[o.id] == Settled(o, r.left, r.fills != []) &&
            Settled(o, r.left, r.fills != []).side == o.side
    ensures PriceOf(Settled(o, r.left, r.fills != [])) == PriceOf(o)
  {
  }

  /** An opposite order that is still resting when the taker has a rest does not cross the taker. */
  lemma OppositeLeft(v: View, o: Order, q: seq<Order>, lastSequence: nat, m: string)
    requires Meets(v, o, q, lastSequence)
    requires var r := Sweep(q, o.remaining, o);
             r.left > 0 && m in v.resting && m !in FilledMakers(Swept(v, o, r), r.fills)
    requires m in v.orders && v.orders[m].side == Opposite(o.side)
    ensures !Crosses(o, PriceOf(v.orders[m]))
  {
    var r := Sweep(q, o.remaining, o);
    var side := Opposite(o.side);
    assert v.orders[m] in q;
    assert forall x :: x in q ==> x.side == side;
    NothingCrossesTheRest(q, o.remaining, o, side);
    SweepKeepsPriority(q, o.remaining, o);
    var n := |r.fills|;
    assert r.queue == q[n..];
    var i :| 0 <= i < |q| && q[i] == v.orders[m];
    SweepFills(v, o, q, lastSequence);
    assert q[i].id == m && q[i].remaining > 0;
    hide Sweep, Crosses, Meets, Swept;
    if i < n {
      SweptOrder(v, o, q, m, lastSequence);
      MadeByOne(r.fills, i);
      InFilled(Swept(v, o, r), r.fills, m);
      assert false;
    } else {
      assert q[n..][i - n] == q[i];
    }
  }

  lemma {:induction false} MadeByOne(fills: seq<Fill>, i: nat)
    requires i < |fills| && forall i, j :: 0 <= i < j < |fills| ==> fills[i].maker != fills[j].maker
    ensures MadeBy(fills, fills[i].maker) == fills[i].quantity
  {
    var k := |fills| - 1;
    var before := fills[..k];
    forall x, y | 0 <= x < y < k ensures before[x].maker != before[y].maker {
      assert fills[x].maker != fills[y].maker;
    }
    if i == k {
      forall x | 0 <= x < k ensures before[x].maker != fills[k].maker {
        assert fills[x].maker != fills[k].maker;
      }
      MadeByNone(before, fills[k].maker);
    } else {
      MadeByOne(before, i);
      assert before[i] == fills[i] && fills[i].maker != fills[k].maker;
    }
  }

  // ---------------------------------------------------------------- every command keeps the view sane

  lemma AcceptedIsSane(symbol: string, limits: RiskLimits, v: View, o: Order, q: seq<Order>, lastSequence: nat)
    requires Meets(v, o, q, lastSequence)
    ensures Sane(Accepted(symbol, limits, v, o, q), o.sequence)
  {
    hide *;
    MeetsLive(v, o, q, lastSequence);
    var w := Accepted(symbol, limits, v, o, q);
    var reason := RiskReason(limits, v.open, v.lastPrice, o);
    if reason.Some? {
      AcceptedRefuses(symbol, limits, v, o, q, reason.value);
      RejectedIsSane(v, o, o.(status := Rejected, reason := reason), lastSequence);
    } else {
      var r := Sweep(q, o.remaining, o);
      var matched := AfterFills(v.orders[o.id := o], r.fills)[o.id := o.(remaining := r.left)];
      AcceptedParts(symbol, limits, v, o, q, r, matched, w);
      SweepConserves(symbol, v, o, q, lastSequence, w);
      SweepUncrosses(v, o, q, lastSequence, w);
      SweepCounts(v, o, q, lastSequence, matched, Released(v.open, matched, r.fills), w);
      SweptIsNamed(v, o, q, lastSequence, w);
      SaneAgain(w, o.sequence);
    }
  }

  lemma MeetsLive(v: View, o: Order, q: seq<Order>, lastSequence: nat)
    requires Meets(v, o, q, lastSequence)
    ensures AllLive(q) && Sane(v, lastSequence) && Fresh(v, o, lastSequence)
  {
  }

  lemma AcceptedRefuses(symbol: string, limits: RiskLimits, v: View, o: Order, q: seq<Order>, reason: Reason)
    requires AllLive(q) && RiskReason(limits, v.open, v.lastPrice, o) == Some(reason)
    ensures Accepted(symbol, limits, v, o, q) ==
            v.(orders := v.orders[o.id := o.(status := Rejected, reason := Some(reason))])
    ensures var rejected := o.(status := Rejected, reason := Some(reason));
            SameParty(o, rejected.(reason := o.reason)) && rejected.remaining == o.remaining
  {
  }

  lemma AcceptedParts(symbol: string, limits: RiskLimits, v: View, o: Order, q: seq<Order>, r: Outcome, matched: Orders,
                      w: View)
    requires AllLive(q) && RiskReason(limits, v.open, v.lastPrice, o).None? && w == Accepted(symbol, limits, v, o, q)
    requires r == Sweep(q, o.remaining, o) &&
             matched == AfterFills(v.orders[o.id := o], r.fills)[o.id := o.(remaining := r.left)]
    ensures w.orders == Swept(v, o, r) && w.trades == v.trades + TradesOf(symbol, o, r.fills)
    ensures w.resting == if Rests(o, r.left) then StillLive(v.resting, w.orders) + {o.id}
            else StillLive(v.resting, w.orders)
    ensures var open := Released(v.open, matched, r.fills);
            w.open == if Rests(o, r.left) then open[o.account := Open(open, o.account) + 1] else open
  {
    hide *;
    AcceptedMatches(symbol, limits, v, o, q);
    MatchedParts(symbol, v, o, r, matched, w);
  }

  lemma MatchedParts(symbol: string, v: View, o: Order, r: Outcome, matched: Orders, w: View)
    requires w == Matched(symbol, v, o, r)
    requires matched == AfterFills(v.orders[o.id := o], r.fills)[o.id := o.(remaining := r.left)]
    ensures w.orders == Swept(v, o, r) && w.trades == v.trades + TradesOf(symbol, o, r.fills)
    ensures w.resting == if Rests(o, r.left) then StillLive(v.resting, w.orders) + {o.id}
            else StillLive(v.resting, w.orders)
    ensures var open := Released(v.open, matched, r.fills);
            w.open == if Rests(o, r.left) then open[o.account := Open(open, o.account) + 1] else open
  {
    hide AfterFills, Released, TradesOf, Settled, Rests, StillLive, Open;
  }

  lemma AcceptedMatches(symbol: string, limits: RiskLimits, v: View, o: Order, q: seq<Order>)
    requires AllLive(q) && RiskReason(limits, v.open, v.lastPrice, o).None?
    ensures Accepted(symbol, limits, v, o, q) == Matched(symbol, v, o, Sweep(q, o.remaining, o))
  {
    hide Matched, Sweep;
  }


  lemma SaneAgain(w: View, lastSequence: nat)
    requires Conserved(w) && Uncrossed(w.orders, w.resting) && Counted(w.open, w.orders, w.resting) &&
             Tidy(w, lastSequence)
    ensures Sane(w, lastSequence)
  {
  }

  /** The parts of sanity that look at one order at a time. */
  ghost predicate Tidy(w: View, lastSequence: nat) {
    && Named(w.orders)
    && (forall id :: id in w.resting ==> id in w.orders && IsLive(w.orders[id]) && w.orders[id].price.Some?)
    && (forall id :: id in w.orders ==>
          w.orders[id].sequence <= lastSequence && w.orders[id].remaining <= w.orders[id].quantity)
  }

  lemma SweptIsNamed(v: View, o: Order, q: seq<Order>, lastSequence: nat, w: View)
    requires Meets(v, o, q, lastSequence)
    requires var r := Sweep(q, o.remaining, o);
             && w.orders == Swept(v, o, r)
             && w.resting == (if Rests(o, r.left) then StillLive(v.resting, w.orders) + {o.id}
                              else StillLive(v.resting, w.orders))
    ensures Tidy(w, o.sequence)
  {
    hide *;
    MeetsLive(v, o, q, lastSequence);
    var r := Sweep(q, o.remaining, o);
    SweptOrder(v, o, q, o.id, lastSequence);
    SweepFills(v, o, q, lastSequence);
    forall id | id in w.orders
      ensures w.orders[id].id == id && w.orders[id].sequence <= o.sequence &&
              w.orders[id].remaining <= w.orders[id].quantity
      ensures id in v.orders ==> w.orders[id].price == v.orders[id].price
    {
      SweptOrder(v, o, q, id, lastSequence);
      NamedAfter(v, o, q, r, lastSequence, id);
    }
    RestingIsTidy(v, o, q, r, lastSequence, w);
  }

  lemma RestingIsTidy(v: View, o: Order, q: seq<Order>, r: Outcome, lastSequence: nat, w: View)
    requires Meets(v, o, q, lastSequence)
    requires w.orders.Keys == v.orders.Keys + {o.id} && w.orders[o.id] == Settled(o, r.left, r.fills != [])
    requires w.resting == (if Rests(o, r.left) then StillLive(v.resting, w.orders) + {o.id}
                           else StillLive(v.resting, w.orders))
    requires forall id :: id in w.orders ==>
               && w.orders[id].id == id && w.orders[id].sequence <= o.sequence &&
                  w.orders[id].remaining <= w.orders[id].quantity
               && (id in v.orders ==> w.orders[id].price == v.orders[id].price)
    ensures Tidy(w, o.sequence)
  {
    hide IsQueue, Conserved, Uncrossed, Counted;
  }

  /** An order after the sweep keeps its name and price and has no more left than it had. */
  lemma NamedAfter(v: View, o: Order, q: seq<Order>, r: Outcome, lastSequence: nat, id: string)
    requires Meets(v, o, q, lastSequence) && (id in v.orders || id == o.id) &&
             Swept(v, o, r).Keys == v.orders.Keys + {o.id}
    requires id in v.orders && id != o.id ==>
               && MadeBy(r.fills, id) <= v.orders[id].remaining
               && Swept(v, o, r)[id] == if MadeBy(r.fills, id) == 0 then v.orders[id]
                  else FillOne(v.orders[id], MadeBy(r.fills, id))
    requires r.left <= o.remaining && Swept(v, o, r)[o.id] == Settled(o, r.left, r.fills != [])
    ensures var x := Swept(v, o, r)[id]; x.id == id && x.sequence <= o.sequence && x.remaining <= x.quantity
    ensures id in v.orders ==> Swept(v, o, r)[id].price == v.orders[id].price
  {
    hide Sweep, Swept, MadeBy, IsQueue, Conserved, Uncrossed, Counted;
  }


  lemma RejectedIsSane(v: View, o: Order, rejected: Order, lastSequence: nat)
    requires Sane(v, lastSequence) && Fresh(v, o, lastSequence) && SameParty(o, rejected.(reason := o.reason)) &&
             rejected.remaining == o.remaining
    ensures Sane(v.(orders := v.orders[o.id := rejected]), o.sequence)
  {
    var w := v.(orders := v.orders[o.id := rejected]);
    assert Traded(v.trades, o.id) == 0;
    assert o.id !in v.resting;
    forall account ensures RestingOf(w.orders, w.resting, account) == RestingOf(v.orders, v.resting, account) {
    }
  }

  lemma CancelIsSane(v: View, id: string, lastSequence: nat)
    requires Sane(v, lastSequence) && id in v.resting
    ensures id in v.orders && Sane(CancelledView(v, id), lastSequence)
  {
    var w := CancelledView(v, id);
    assert id in v.orders;
    assert Counted(w.open, w.orders, w.resting) by {
      forall account ensures Open(w.open, account) == |RestingOf(w.orders, w.resting, account)| {
        OneLessResting(v.orders, v.resting, id, account);
        assert RestingOf(w.orders, w.resting, account) == RestingOf(v.orders, v.resting - {id}, account);
      }
    }
    hide Counted, RestingOf;
    assert Conserved(w) && Uncrossed(w.orders, w.resting);
  }

  lemma EmptyIsSane()
    ensures Sane(EMPTY, 0)
  {
    forall account ensures RestingOf(EMPTY.orders, EMPTY.resting, account) == {} {
    }
  }

  // ---------------------------------------------------------------- small facts for the engine's steps

  lemma SaneLater(v: View, lastSequence: nat, sequence: nat)
    requires Sane(v, lastSequence) && sequence >= lastSequence
    ensures Sane(v, sequence)
  {
  }

  lemma ReachedMore(symbol: string, limits: RiskLimits, journal: Journal, v: View, sequence: nat, c: Command, w: View)
    requires Reached(symbol, limits, journal, v) && Applied(symbol, limits, v, sequence, c, w)
    ensures Reached(symbol, limits, journal + [(sequence, c)], w)
  {
    var more := journal + [(sequence, c)];
    assert more[..|journal|] == journal;
    hide Applied;
  }

  lemma OrderFacts(sequence: nat, c: Command, v: View, lastSequence: nat)
    requires c.NewOrder? && ValidCommand(c) && c.id !in v.orders && sequence > lastSequence
    ensures var o := OrderOf(sequence, c);
            Fresh(v, o, lastSequence) && o.id == c.id && o.side == c.side && o.sequence == sequence
  {
  }

  lemma MeetsNow(v: View, o: Order, q: seq<Order>, lastSequence: nat)
    requires Sane(v, lastSequence) && Fresh(v, o, lastSequence) && IsQueue(v.orders, v.resting, Opposite(o.side), q) &&
             AllLive(q)
    ensures Meets(v, o, q, lastSequence)
  {
  }

  lemma AppliedNow(symbol: string, limits: RiskLimits, v: View, sequence: nat, c: Command, q: seq<Order>)
    requires c.NewOrder? && IsQueue(v.orders, v.resting, Opposite(c.side), q) && AllLive(q)
    ensures Applied(symbol, limits, v, sequence, c, Accepted(symbol, limits, v, OrderOf(sequence, c), q))
  {
    hide Accepted, IsQueue, AllLive;
  }

  lemma RejectedIs(symbol: string, limits: RiskLimits, v: View, o: Order, q: seq<Order>, reason: Option<Reason>)
    requires AllLive(q) && reason == RiskReason(limits, v.open, v.lastPrice, o) && reason.Some?
    ensures Accepted(symbol, limits, v, o, q) ==
            v.(orders := v.orders[o.id := o.(status := Rejected, reason := reason)])
  {
  }

  lemma AcceptedIs(symbol: string, limits: RiskLimits, v: View, o: Order, q: seq<Order>, matched: Orders, r: Outcome,
                   open: map<string, int>, w: View, traded: bool)
    requires AllLive(q) && RiskReason(limits, v.open, v.lastPrice, o).None? && r == Sweep(q, o.remaining, o)
    requires matched == AfterFills(v.orders[o.id := o], r.fills)[o.id := o.(remaining := r.left)]
    requires open == Released(v.open, matched, r.fills) && o.id !in v.resting && (traded <==> r.fills != [])
    requires w.orders == matched[o.id := Settled(o, r.left, traded)]
    requires w.resting == StillLive(v.resting, matched) + (if Rests(o, r.left) then {o.id} else {})
    requires w.trades == v.trades + TradesOf(symbol, o, r.fills)
    requires w.lastPrice == if traded then Some(r.fills[|r.fills| - 1].price) else v.lastPrice
    requires w.open == if Rests(o, r.left) then open[o.account := Open(open, o.account) + 1] else open
    ensures w == Accepted(symbol, limits, v, o, q)
  {
    hide Sweep, AfterFills, Released, TradesOf, RiskReason, AllLive, Settled, IsLive, Rests;
    var orders := w.orders;
    assert StillLive(v.resting, matched) == StillLive(v.resting, orders);
    assert StillLive(v.resting, matched) + {} == StillLive(v.resting, matched);
    assert orders == AfterFills(v.orders[o.id := o], r.fills)[o.id := Settled(o, r.left, r.fills != [])];
  }

  /** An order no level holds can be recorded or updated without touching the book's structure. */
  lemma RecordKeeps(b: Book, o: Order)
    requires WellFormed(b) && !Queued(b, o.id)
    ensures var c := b.(orders := b.orders[o.id := o]);
            WellFormed(c) && !Queued(c, o.id) && forall side :: QueueOf(c, side) == QueueOf(b, side)
  {
    var c := b.(orders := b.orders[o.id := o]);
    RecordLevels(b, o);
    RecordResting(b, o);
    forall side ensures QueueOf(c, side) == QueueOf(b, side) {
      BookIsQueue(b, side);
      BookIsQueue(c, side);
      hide WellFormed, QueueOf, InPriority;
      assert o.id !in b.resting;
      assert IsQueue(c.orders, c.resting, side, QueueOf(b, side));
      QueueIsUnique(c.orders, c.resting, side, QueueOf(b, side), QueueOf(c, side));
    }
  }

  lemma RecordLevels(b: Book, o: Order)
    requires WellFormed(b) && !Queued(b, o.id)
    ensures var c := b.(orders := b.orders[o.id := o]); HeapsMatch(c) && LevelsMatch(c) && Named(c.orders)
    ensures forall l: Level :: l in b.levels ==> o.id !in b.levels[l]
  {
    hide HeapsMatch, RestingMatches;
    var c := b.(orders := b.orders[o.id := o]);
    SameHeaps(b, c);
    forall l: Level | l in b.levels ensures o.id !in b.levels[l] && LevelOk(c.orders, l, c.levels[l]) {
      assert LevelOk(b.orders, l, b.levels[l]);
      if o.id in b.levels[l] {
        assert false;
      }
      LevelWithout(b.orders, l, b.levels[l], o);
    }
  }

  lemma SameHeaps(b: Book, c: Book)
    requires HeapsMatch(b) && c.bids == b.bids && c.asks == b.asks && c.levels == b.levels
    ensures HeapsMatch(c)
  {
    assert forall side :: Heap(c, side) == Heap(b, side);
  }

  lemma LevelWithout(orders: Orders, l: Level, ids: seq<string>, o: Order)
    requires LevelOk(orders, l, ids) && o.id !in ids
    ensures LevelOk(orders[o.id := o], l, ids)
  {
    forall i, j | 0 <= i < j < |ids| ensures orders[o.id := o][ids[i]].sequence < orders[o.id := o][ids[j]].sequence {
      assert ids[i] in ids && ids[j] in ids;
    }
  }

  lemma RecordResting(b: Book, o: Order)
    requires WellFormed(b) && !Queued(b, o.id) && forall l: Level :: l in b.levels ==> o.id !in b.levels[l]
    ensures var c := b.(orders := b.orders[o.id := o]); RestingMatches(c) && !Queued(c, o.id) && o.id !in b.resting
  {
    hide HeapsMatch, LevelsMatch;
    var c := b.(orders := b.orders[o.id := o]);
    forall id ensures id in c.resting <==> Queued(c, id) && IsLive(c.orders[id]) {
      assert id in b.resting <==> Queued(b, id) && IsLive(b.orders[id]);
      assert id != o.id ==> (Queued(c, id) <==> Queued(b, id));
    }
  }

  /** Everything queued came before the order that is about to rest. */
  lemma QueuedBefore(v: View, o: Order, fills: seq<Fill>, b: Book, lastSequence: nat)
    requires Sane(v, lastSequence) && o.sequence > lastSequence && !Queued(b, o.id)
    requires forall id :: id != o.id && id in b.orders ==>
               id in v.orders && b.orders[id] == AfterFills(v.orders[o.id := o], fills)[id]
    ensures forall x :: Queued(b, x) ==> b.orders[x].sequence < o.sequence
  {
    AfterFillsTerms(v.orders[o.id := o], fills);
    hide AfterFills, Conserved, Uncrossed, Counted;
    forall x | Queued(b, x) ensures b.orders[x].sequence < o.sequence {
      assert x != o.id && x in b.orders;
    }
  }

  lemma MakersExist(b: Book, side: Side, fills: seq<Fill>, orders: Orders)
    requires MakersOf(b, side, fills) && b.orders.Keys <= orders.Keys
    ensures forall i :: 0 <= i < |fills| ==> fills[i].maker in orders
  {
  }

  lemma UnknownIsNotQueued(b: Book, id: string)
    requires id !in b.orders
    ensures !Queued(b, id)
  {
  }

  lemma SettledFacts(o: Order, left: nat, traded: bool)
    requires o.status == New
    ensures Settled(o, left, traded).id == o.id && Settled(o, left, traded).price == o.price &&
            Settled(o, left, traded).sequence == o.sequence
    ensures Rests(o, left) ==> o.price.Some? && IsLive(Settled(o, left, traded))
    ensures Settled(o, left, traded).side == o.side
  {
  }

  lemma RestedFacts(b: Book, o: Order)
    requires o.price.Some?
    ensures Rested(b, o).orders == b.orders
  {
  }

  lemma FreshFacts(v: View, o: Order, lastSequence: nat)
    requires Sane(v, lastSequence) && Fresh(v, o, lastSequence)
    ensures o.id !in v.orders && o.id !in v.resting && o.status == New && o.sequence > lastSequence
  {
  }

  lemma LastTrade(symbol: string, o: Order, fills: seq<Fill>)
    ensures |TradesOf(symbol, o, fills)| == |fills|
    ensures fills != [] ==> TradesOf(symbol, o, fills)[|fills| - 1].price == fills[|fills| - 1].price
  {
  }

  lemma MakerOf(symbol: string, o: Order, fills: seq<Fill>, i: nat)
    requires i < |fills|
    ensures |TradesOf(symbol, o, fills)| == |fills|
    ensures var t := TradesOf(symbol, o, fills)[i]; fills[i].maker == if t.aggressor == Buy then t.sellId else t.buyId
  {
  }

  lemma ReleasedStep(open: map<string, int>, orders: Orders, fills: seq<Fill>, i: nat)
    requires i < |fills|
    ensures Released(open, orders, fills[..i + 1]) ==
            (var before, m := Released(open, orders, fills[..i]), fills[i].maker;
             if m in orders && orders[m].status == Filled
                then before[orders[m].account := Open(before, orders[m].account) - 1] else before)
  {
    assert fills[..i + 1][..i] == fills[..i];
  }

  // ---------------------------------------------------------------- the engine

  class MatchingEngine {
    const symbol: string
    const limits: RiskLimits
    const book: OrderBook
    var trades: seq<Trade>
    var lastPrice: Option<int>
    var openPerAccount: map<string, int>
    ghost var applied: Journal  // the commands that went through
    ghost var lastSequence: nat

    ghost function Look(): (v: View)
      reads this, book
      ensures v == View(book.orders, book.resting, trades, lastPrice, openPerAccount)
    {
      View(book.orders, book.resting, trades, lastPrice, openPerAccount)
    }

    ghost predicate Valid()
      reads this, book
    {
      book.Valid() && Sane(Look(), lastSequence) && Reached(symbol, limits, applied, Look())
    }

    constructor (symbol: string, limits: RiskLimits)
      ensures Valid() && fresh(book) && Look() == EMPTY && applied == [] && lastSequence == 0
      ensures this.symbol == symbol && this.limits == limits
    {
      this.symbol, this.limits := symbol, limits;
      book := new OrderBook();
      trades, lastPrice, openPerAccount, applied, lastSequence := [], None, map[], [], 0;
      new;
      EmptyIsSane();
    }

    /** Process one sequenced command; a cancel of an order that is not resting raises. */
    method Apply(sequence: nat, command: Command) returns (res: Result<seq<Trade>>)
      requires Valid() && ValidCommand(command)
      requires sequence > lastSequence && (command.NewOrder? ==> command.id !in book.orders)
      modifies this, book
      ensures Valid()
      ensures res.NotFound? <==> command.CancelOrder? && command.id !in old(book.resting)
      ensures res.NotFound? ==> Look() == old(Look()) && applied == old(applied) && lastSequence == old(lastSequence)
      ensures !res.NotFound? ==>
                && res.Ok? && Applied(symbol, limits, old(Look()), sequence, command, Look())
                && trades == old(trades) + res.value
                && applied == old(applied) + [(sequence, command)] && lastSequence == sequence
    {
      hide *;
      if command.CancelOrder? {
        res := CancelResting(sequence, command);
      } else {
        var placed := Place(sequence, command);
        res := Ok(placed);
      }
    }

    method CancelResting(sequence: nat, command: Command) returns (res: Result<seq<Trade>>)
      requires Valid() && command.CancelOrder? && sequence > lastSequence
      modifies this, book
      ensures Valid()
      ensures res.NotFound? <==> command.id !in old(book.resting)
      ensures res.NotFound? ==> Look() == old(Look()) && applied == old(applied) && lastSequence == old(lastSequence)
      ensures !res.NotFound? ==>
                && res == Ok([]) && Applied(symbol, limits, old(Look()), sequence, command, Look()) &&
                   trades == old(trades)
                && applied == old(applied) + [(sequence, command)] && lastSequence == sequence
    {
      hide WellFormed, Sane, Reached;
      ghost var before := Look();
      var cancelled := book.Cancel(command.id);
      if cancelled.NotFound? {
        return NotFound;
      }
      CancelIsSane(before, command.id, lastSequence);
      var account := cancelled.value.account;
      openPerAccount := openPerAccount[account := Open(openPerAccount, account) - 1];
      assert Look() == CancelledView(before, command.id);
      SaneLater(Look(), lastSequence, sequence);
      ReachedMore(symbol, limits, applied, before, sequence, command, Look());
      applied, lastSequence := applied + [(sequence, command)], sequence;
      return Ok([]);
    }

    /** Check the risk limits, match, and rest what is left of a good-till-cancelled limit order. */
    method Place(sequence: nat, command: Command) returns (placed: seq<Trade>)
      requires Valid() && command.NewOrder? && ValidCommand(command)
      requires sequence > lastSequence && command.id !in book.orders
      modifies this, book
      ensures Valid()
      ensures Applied(symbol, limits, old(Look()), sequence, command, Look()) && trades == old(trades) + placed
      ensures applied == old(applied) + [(sequence, command)] && lastSequence == sequence
    {
      hide *;
      ghost var before := Look();
      ghost var start := book.Snap();
      Unpack();
      var order := OrderOf(sequence, command);
      OrderFacts(sequence, command, before, lastSequence);
      ghost var side := Opposite(command.side);
      BookIsQueue(start, side);
      ghost var q := QueueOf(start, side);
      MeetsNow(before, order, q, lastSequence);
      AcceptedIsSane(symbol, limits, before, order, q, lastSequence);
      AppliedNow(symbol, limits, before, sequence, command, q);
      var reason := RiskReason(limits, openPerAccount, lastPrice, order);
      if reason.Some? {
        RejectedIs(symbol, limits, before, order, q, reason);
        Record(order.(status := Rejected, reason := reason));
        placed := [];
      } else {
        Record(order);
        placed := MatchAndSettle(order, before, q);
      }
      ReachedMore(symbol, limits, applied, before, sequence, command, Look());
      applied, lastSequence := applied + [(sequence, command)], sequence;
      Repack();
    }

    lemma Unpack()
      requires Valid()
      ensures book.Valid() && WellFormed(book.Snap()) && Sane(Look(), lastSequence) &&
              Reached(symbol, limits, applied, Look())
    {
    }

    lemma Repack()
      requires book.Valid() && Sane(Look(), lastSequence) && Reached(symbol, limits, applied, Look())
      ensures Valid()
    {
    }

    /** `self._orders[order.order_id] = order`: known to the engine, not to any queue. */
    method Record(order: Order)
      requires book.Valid() && order.id !in book.orders
      modifies book
      ensures book.Valid() && book.orders == old(book.orders)[order.id := order] && book.resting == old(book.resting)
      ensures !Queued(book.Snap(), order.id)
      ensures forall side :: QueueOf(book.Snap(), side) == QueueOf(old(book.Snap()), side)
    {
      hide *;
      ghost var start := book.Snap();
      SnapIsValid();
      UnknownIsNotQueued(start, order.id);
      RecordKeeps(start, order);
      book.orders := book.orders[order.id := order];
      BookValid();
    }

    lemma SnapIsValid()
      requires book.Valid()
      ensures WellFormed(book.Snap())
    {
    }

    lemma BookValid()
      requires WellFormed(book.Snap())
      ensures book.Valid()
    {
    }

    method MatchAndSettle(order: Order, ghost before: View, ghost q: seq<Order>) returns (placed: seq<Trade>)
      requires book.Valid() && order.id in book.orders && book.orders[order.id] == order &&
               !Queued(book.Snap(), order.id)
      requires Look() == before.(orders := before.orders[order.id := order]) && order.id !in before.orders
      requires q == QueueOf(book.Snap(), Opposite(order.side)) && AllLive(q)
      requires Sane(before, lastSequence) && Fresh(before, order, lastSequence) && order.sequence > lastSequence
      requires RiskReason(limits, before.open, before.lastPrice, order).None?
      modifies this, book
      ensures book.Valid() && lastSequence == old(lastSequence) && applied == old(applied)
      ensures Look() == Accepted(symbol, limits, before, order, q)
      ensures trades == before.trades + placed
    {
      hide *;
      ghost var fills: seq<Fill>;
      placed, fills := book.Match(order.id, symbol);
      ghost var r := Sweep(q, order.remaining, order);
      ghost var matched := book.orders;
      FreshFacts(before, order, lastSequence);
      LastTrade(symbol, order, fills);
      trades := trades + placed;
      MakersExist(old(book.Snap()), Opposite(order.side), fills, matched);
      ReleaseFilledMakers(placed, order, fills);
      ghost var open := openPerAccount;
      if placed != [] {
        lastPrice := Some(placed[|placed| - 1].price);
      }
      var left := book.orders[order.id].remaining;
      SettledFacts(order, left, placed != []);
      QueuedBefore(before, order, fills, book.Snap(), lastSequence);
      Finish(order, left, placed != []);
      Keep(order, left);
      AcceptedIs(symbol, limits, before, order, q, matched, r, open, Look(), placed != []);
    }

    /** What is left of a good-till-cancel limit order goes on the book and counts as open. */
    method Keep(order: Order, left: nat)
      requires book.Valid() && !Queued(book.Snap(), order.id) && order.id in book.orders
      requires exists traded :: book.orders[order.id] == Settled(order, left, traded) && order.status == New
      requires forall x :: Queued(book.Snap(), x) ==> book.orders[x].sequence < order.sequence
      modifies this`openPerAccount, book
      ensures book.Valid() && book.orders == old(book.orders)
      ensures book.resting == old(book.resting) + if Rests(order, left) then {order.id} else {}
      ensures openPerAccount == if Rests(order, left)
                                then old(openPerAccount)[order.account := Open(old(openPerAccount), order.account) + 1]
                                else old(openPerAccount)
    {
      hide *;
      if Rests(order, left) {
        ghost var traded :| book.orders[order.id] == Settled(order, left, traded) && order.status == New;
        SettledFacts(order, left, traded);
        RestedFacts(book.Snap(), book.orders[order.id]);
        var rested := book.Rest(order.id);
        openPerAccount := openPerAccount[order.account := Open(openPerAccount, order.account) + 1];
      }
    }

    /** Set the taker's final status. */
    method Finish(order: Order, left: nat, traded: bool)
      requires book.Valid() && !Queued(book.Snap(), order.id) && order.id in book.orders
      requires book.orders[order.id] == order.(remaining := left) && order.status == New
      modifies book
      ensures book.Valid() && !Queued(book.Snap(), order.id)
      ensures book.orders == old(book.orders)[order.id := Settled(order, left, traded)] &&
              book.resting == old(book.resting)
      ensures forall x :: Queued(book.Snap(), x) ==> x != order.id && Queued(old(book.Snap()), x)
    {
      hide WellFormed, QueueOf;
      var status := if left == 0 then Filled
                    else if order.price.None? || order.tif == Ioc then Cancelled
                    else if traded then PartiallyFilled else New;
      SnapIsValid();
      RecordKeeps(book.Snap(), Settled(order, left, traded));
      book.orders := book.orders[order.id := book.orders[order.id].(status := status)];
      BookValid();
    }

    /** A resting order that just filled completely is no longer open. */
    method ReleaseFilledMakers(placed: seq<Trade>, ghost order: Order, ghost fills: seq<Fill>)
      requires placed == TradesOf(symbol, order, fills)
      requires forall i :: 0 <= i < |fills| ==> fills[i].maker in book.orders
      modifies this`openPerAccount
      ensures openPerAccount == Released(old(openPerAccount), book.orders, fills)
    {
      hide TradesOf, Released;
      ghost var open := openPerAccount;
      LastTrade(symbol, order, fills);
      ReleasedNone(open, book.orders, fills);
      for i := 0 to |placed|
        invariant openPerAccount == Released(open, book.orders, fills[..i])
      {
        MakerOf(symbol, order, fills, i);
        ReleasedStep(open, book.orders, fills, i);
        var makerId := if placed[i].aggressor == Buy then placed[i].sellId else placed[i].buyId;
        var maker := book.orders[makerId];
        if maker.status == Filled {
          openPerAccount := openPerAccount[maker.account := Open(openPerAccount, maker.account) - 1];
        }
      }
      assert fills[..|placed|] == fills;
    }

    lemma ReleasedNone(open: map<string, int>, orders: Orders, fills: seq<Fill>)
      ensures Released(open, orders, fills[..0]) == open
    {
    }
  }

  // ---------------------------------------------------------------- replay

  /** What a gateway's journal looks like: numbered upwards, well-formed commands, no order id twice. */
  ghost predicate Orderly(journal: Journal) {
    && (forall i :: 0 <= i < |journal| ==> journal[i].0 > 0 && ValidCommand(journal[i].1))
    && (forall i, j :: 0 <= i < j < |journal| ==> journal[i].0 < journal[j].0)
    && (forall i, j :: 0 <= i < j < |journal| && journal[i].1.NewOrder? && journal[j].1.NewOrder? ==>
          journal[i].1.id != journal[j].1.id)
  }

  ghost function IdsOf(journal: Journal): set<string> {
    set i | 0 <= i < |journal| && journal[i].1.NewOrder? :: journal[i].1.id
  }

  lemma KeysAfter(symbol: string, limits: RiskLimits, v: View, sequence: nat, c: Command, w: View)
    requires Applied(symbol, limits, v, sequence, c, w)
    ensures w.orders.Keys == if c.NewOrder? then v.orders.Keys + {c.id} else v.orders.Keys
  {
    hide Sweep, IsQueue;
  }

  lemma IdsSnoc(journal: Journal, i: nat)
    requires i < |journal|
    ensures IdsOf(journal[..i + 1]) ==
            if journal[i].1.NewOrder? then IdsOf(journal[..i]) + {journal[i].1.id} else IdsOf(journal[..i])
  {
    var a, b := journal[..i], journal[..i + 1];
    forall id ensures id in IdsOf(b) <==> id in IdsOf(a) || (journal[i].1.NewOrder? && id == journal[i].1.id) {
      if id in IdsOf(a) {
        var j :| 0 <= j < i && a[j].1.NewOrder? && a[j].1.id == id;
        assert b[j] == a[j];
      }
      if journal[i].1.NewOrder? && id == journal[i].1.id {
        assert b[i] == journal[i];
      }
    }
  }

  lemma {:induction false} ReachedPrefix(symbol: string, limits: RiskLimits, journal: Journal, i: nat, v: View)
    requires Reached(symbol, limits, journal, v) && i <= |journal|
    ensures exists u :: Reached(symbol, limits, journal[..i], u)
    decreases |journal|
  {
    hide Applied;
    if i == |journal| {
      assert journal[..i] == journal;
    } else {
      var n := |journal| - 1;
      var u :| Reached(symbol, limits, journal[..n], u) && Applied(symbol, limits, u, journal[n].0, journal[n].1, v);
      ReachedPrefix(symbol, limits, journal[..n], i, u);
      assert journal[..n][..i] == journal[..i];
    }
  }

  /** The guard behind every failing command: a cancel of an order that is not resting. */
  ghost predicate FailsAt(c: Command, v: View) {
    c.CancelOrder? && c.id !in v.resting
  }

  /** A cancel that fails at step `i` of a journal leaves the whole journal leading nowhere. */
  lemma StuckAt(symbol: string, limits: RiskLimits, journal: Journal, i: nat, v: View)
    requires i < |journal| && Reached(symbol, limits, journal[..i], v) && FailsAt(journal[i].1, v)
    ensures forall w :: !Reached(symbol, limits, journal, w)
  {
    forall w ensures !Reached(symbol, limits, journal, w) {
      if Reached(symbol, limits, journal, w) {
        ReachedPrefix(symbol, limits, journal, i + 1, w);
        var x :| Reached(symbol, limits, journal[..i + 1], x);
        assert journal[..i + 1][..i] == journal[..i];
        var u :| Reached(symbol, limits, journal[..i], u) && Applied(symbol, limits, u, journal[i].0, journal[i].1, x);
        ReachedOnce(symbol, limits, journal[..i], u, v);
        assert false;
      }
    }
  }

  lemma OrderlyAt(journal: Journal, i: nat)
    requires Orderly(journal) && i < |journal|
    ensures ValidCommand(journal[i].1) && journal[i].0 > if i == 0 then 0 else journal[i - 1].0
    ensures journal[i].1.NewOrder? ==> journal[i].1.id !in IdsOf(journal[..i])
  {
  }

  lemma NoJournal(symbol: string, limits: RiskLimits)
    ensures Reached(symbol, limits, [], EMPTY) && IdsOf([]) == {} == EMPTY.orders.Keys
  {
  }

  /** Some cancel of the journal finds its order not resting in the view its predecessors lead to. */
  ghost predicate HasFailingCancel(symbol: string, limits: RiskLimits, journal: Journal) {
    exists i, v :: 0 <= i < |journal| && Reached(symbol, limits, journal[..i], v) && FailsAt(journal[i].1, v)
  }

  lemma Refused(c: Command, v: View)
    requires c.CancelOrder? && c.id !in v.resting
    ensures FailsAt(c, v)
  {
  }

  lemma FailingCancel(symbol: string, limits: RiskLimits, journal: Journal, i: nat, v: View)
    requires i < |journal| && Reached(symbol, limits, journal[..i], v) && FailsAt(journal[i].1, v)
    ensures HasFailingCancel(symbol, limits, journal) && forall w :: !Reached(symbol, limits, journal, w)
  {
    hide Reached;
    StuckAt(symbol, limits, journal, i, v);
  }

  lemma NoFailingCancel(symbol: string, limits: RiskLimits, journal: Journal, v: View)
    requires Reached(symbol, limits, journal, v)
    ensures !HasFailingCancel(symbol, limits, journal)
  {
    hide Reached;
    forall i, u | 0 <= i < |journal| && Reached(symbol, limits, journal[..i], u) && FailsAt(journal[i].1, u)
      ensures false {
      StuckAt(symbol, limits, journal, i, u);
    }
  }

  /** Rebuild an engine from a journal. It fails exactly when some cancel in the journal failed the
      first time, and otherwise ends in the one view that journal leads to. */
  method Replay(symbol: string, journal: Journal, limits: RiskLimits) returns (res: Result<MatchingEngine>)
    requires Orderly(journal)
    ensures res.Ok? || res.NotFound?
    ensures res.Ok? <==> exists v :: Reached(symbol, limits, journal, v)
    ensures res.NotFound? <==> HasFailingCancel(symbol, limits, journal)
    ensures res.Ok? ==> fresh(res.value) && res.value.Valid() && res.value.applied == journal
    ensures res.Ok? ==> forall v :: Reached(symbol, limits, journal, v) ==> res.value.Look() == v
  {
    hide *;
    var engine := new MatchingEngine(symbol, limits);
    NoJournal(symbol, limits);
    assert journal[..0] == [];
    for i := 0 to |journal|
      invariant engine.Valid() && fresh(engine) && fresh(engine.book) && engine.symbol == symbol &&
                engine.limits == limits
      invariant engine.applied == journal[..i] && engine.book.orders.Keys == IdsOf(journal[..i])
      invariant engine.lastSequence == if i == 0 then 0 else journal[i - 1].0
    {
      OrderlyAt(journal, i);
      ghost var before := engine.Look();
      engine.Unpack();
      var applied := engine.Apply(journal[i].0, journal[i].1);
      if applied.NotFound? {
        Refused(journal[i].1, before);
        FailingCancel(symbol, limits, journal, i, before);
        return NotFound;
      }
      KeysAfter(symbol, limits, before, journal[i].0, journal[i].1, engine.Look());
      IdsSnoc(journal, i);
      assert journal[..i + 1] == journal[..i] + [journal[i]];
    }
    assert journal[..|journal|] == journal;
    engine.Unpack();
    assert engine.applied == journal;
    assert Reached(symbol, limits, journal, engine.Look());
    NoFailingCancel(symbol, limits, journal, engine.Look());
    forall v | Reached(symbol, limits, journal, v) ensures engine.Look() == v {
      ReachedOnce(symbol, limits, journal, engine.Look(), v);
    }
    return Ok(engine);
  }
}
