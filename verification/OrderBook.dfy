/** The order book: a heap of price levels per side, a first-in-first-out queue inside each level. */
module OrderBook {
  import opened MatchingSpec
  import opened Wrappers

  datatype Result<+T> = Ok(value: T) | NotFound | InvalidState

  type Level = (Side, int)

  /** The book as a value. `orders` is every order object by id: the level queues, the resting
      index and the engine share those objects. */
  datatype Book = Book(bids: seq<int>, asks: seq<int>, levels: map<Level, seq<string>>, orders: Orders,
                       resting: set<string>)

  function Heap(b: Book, side: Side): seq<int> {
    if side == Buy then b.bids else b.asks
  }

  ghost predicate Increases(keys: seq<int>) {
    forall i, j :: 0 <= i < j < |keys| ==> keys[i] < keys[j]
  }

  /** Each heap holds exactly the keys of its side's levels, each once. */
  ghost predicate HeapsMatch(b: Book) {
    && Increases(b.bids) && Increases(b.asks)
    && forall l: Level :: l in b.levels <==> Key(l.0, l.1) in Heap(b, l.0)
  }

  /** An order waits in the level of its own side and price, in sequence. */
  ghost predicate LevelsMatch(b: Book) {
    forall l: Level :: l in b.levels ==> LevelOk(b.orders, l, b.levels[l])
  }

  ghost predicate LevelOk(orders: Orders, l: Level, ids: seq<string>) {
    && (forall id :: id in ids ==> id in orders && orders[id].side == l.0 && orders[id].price == Some(l.1))
    && InSequence(orders, ids)
  }

  lemma LevelTail(orders: Orders, l: Level, ids: seq<string>)
    requires LevelOk(orders, l, ids) && ids != []
    ensures LevelOk(orders, l, ids[1..]) && ids[0] !in ids[1..]
    ensures forall id :: id in ids <==> id == ids[0] || id in ids[1..]
  {
    assert ids == [ids[0]] + ids[1..];
  }

  /** Orders keep their side, price and sequence for life. */
  ghost predicate SameTerms(orders: Orders, orders': Orders) {
    && orders'.Keys == orders.Keys
    && forall id :: id in orders ==>
         orders'[id].side == orders[id].side && orders'[id].price == orders[id].price &&
             orders'[id].sequence == orders[id].sequence
  }

  lemma LevelTerms(orders: Orders, orders': Orders, l: Level, ids: seq<string>)
    requires LevelOk(orders, l, ids) && SameTerms(orders, orders')
    ensures LevelOk(orders', l, ids)
  {
  }

  ghost predicate InSequence(orders: Orders, ids: seq<string>) {
    forall i, j :: 0 <= i < j < |ids| ==>
      ids[i] in orders && ids[j] in orders && orders[ids[i]].sequence < orders[ids[j]].sequence
  }

  ghost predicate Queued(b: Book, id: string) {
    && id in b.orders && b.orders[id].price.Some?
    && var l := (b.orders[id].side, b.orders[id].price.value); l in b.levels && id in b.levels[l]
  }

  /** The resting index names exactly the queued orders that are still live. */
  ghost predicate RestingMatches(b: Book) {
    forall id :: id in b.resting <==> Queued(b, id) && IsLive(b.orders[id])
  }

  ghost predicate Named(orders: Orders) {
    forall id :: id in orders ==> orders[id].id == id
  }

  ghost predicate WellFormed(b: Book) {
    HeapsMatch(b) && LevelsMatch(b) && RestingMatches(b) && Named(b.orders)
  }

  // ---------------------------------------------------------------- the priority queue the levels stand for

  ghost function LiveOf(orders: Orders, ids: seq<string>): seq<Order> {
    if ids == [] then [] else
      (if ids[0] in orders && IsLive(orders[ids[0]]) then [orders[ids[0]]] else []) + LiveOf(orders, ids[1..])
  }

  ghost function LevelAt(b: Book, side: Side, key: int): seq<string> {
    var l := (side, Key(side, key)); if l in b.levels then b.levels[l] else []
  }

  ghost function Flatten(b: Book, side: Side, keys: seq<int>): seq<Order> {
    if keys == [] then [] else LiveOf(b.orders, LevelAt(b, side, keys[0])) + Flatten(b, side, keys[1..])
  }

  /** One side of the book, best order first. */
  ghost function QueueOf(b: Book, side: Side): seq<Order> {
    Flatten(b, side, Heap(b, side))
  }

  lemma {:induction false} LiveOfMembers(orders: Orders, ids: seq<string>, o: Order)
    requires Named(orders)
    ensures o in LiveOf(orders, ids) <==> o.id in ids && o.id in orders && orders[o.id] == o && IsLive(o)
  {
    if ids != [] {
      LiveOfMembers(orders, ids[1..], o);
      assert o.id in ids <==> o.id == ids[0] || o.id in ids[1..];
    }
  }

  lemma {:induction false} LiveOfSorted(orders: Orders, ids: seq<string>, side: Side, price: int)
    requires Named(orders) && InSequence(orders, ids)
    requires forall id :: id in ids ==> id in orders && orders[id].side == side && orders[id].price == Some(price)
    ensures InPriority(LiveOf(orders, ids))
  {
    if ids != [] {
      assert forall id :: id in ids[1..] ==> id in ids;
      LiveOfSorted(orders, ids[1..], side, price);
      var rest := LiveOf(orders, ids[1..]);
      forall i | 0 <= i < |rest| ensures Before(orders[ids[0]], rest[i]) {
        LiveOfMembers(orders, ids[1..], rest[i]);
        FirstIsBefore(orders, ids, side, price, rest[i]);
      }
    }
  }

  lemma FirstIsBefore(orders: Orders, ids: seq<string>, side: Side, price: int, o: Order)
    requires InSequence(orders, ids) && ids != [] && o.id in ids[1..] && o.id in orders && orders[o.id] == o
    requires forall id :: id in ids ==> id in orders && orders[id].side == side && orders[id].price == Some(price)
    ensures ids[0] in orders && Before(orders[ids[0]], o)
  {
    var k :| 0 <= k < |ids| - 1 && ids[1..][k] == o.id;
    assert ids[k + 1] == o.id && ids[0] in ids && ids[k + 1] in ids;
  }

  lemma {:induction false} FlattenMembers(b: Book, side: Side, keys: seq<int>, o: Order)
    requires WellFormed(b)
    ensures o in Flatten(b, side, keys) <==>
              exists i :: 0 <= i < |keys| && o in LiveOf(b.orders, LevelAt(b, side, keys[i]))
  {
    hide WellFormed, LiveOf, LevelAt;
    if keys != [] {
      FlattenMembers(b, side, keys[1..], o);
      if i :| 0 <= i < |keys| && o in LiveOf(b.orders, LevelAt(b, side, keys[i])) {
        assert i > 0 ==> keys[1..][i - 1] == keys[i];
      }
      if i :| 0 <= i < |keys| - 1 && o in LiveOf(b.orders, LevelAt(b, side, keys[1..][i])) {
        assert keys[1..][i] == keys[i + 1];
      }
    }
  }

  /** What a level's live orders have in common. */
  lemma LevelFacts(b: Book, side: Side, key: int, o: Order)
    requires WellFormed(b) && o in LiveOf(b.orders, LevelAt(b, side, key))
    ensures o.side == side && o.price == Some(Key(side, key)) && Key(side, PriceOf(o)) == key
    ensures o.id in b.resting && o.id in b.orders && b.orders[o.id] == o && IsLive(o)
  {
    LiveOfMembers(b.orders, LevelAt(b, side, key), o);
  }

  lemma {:induction false} FlattenSorted(b: Book, side: Side, keys: seq<int>)
    requires WellFormed(b) && Increases(keys)
    ensures InPriority(Flatten(b, side, keys))
  {
    hide LiveOf, Flatten;
    if keys == [] {
      FlattenNil(b, side);
    } else {
      FlattenCons(b, side, keys);
      FlattenSorted(b, side, keys[1..]);
      var head, rest := LiveOf(b.orders, LevelAt(b, side, keys[0])), Flatten(b, side, keys[1..]);
      LevelSorted(b, side, keys[0]);
      forall i, j | 0 <= i < |head| && 0 <= j < |rest| ensures Before(head[i], rest[j]) {
        FlattenMembers(b, side, keys[1..], rest[j]);
        var k :| 0 <= k < |keys| - 1 && rest[j] in LiveOf(b.orders, LevelAt(b, side, keys[1..][k]));
        LevelFacts(b, side, keys[0], head[i]);
        LevelFacts(b, side, keys[1..][k], rest[j]);
      }
    }
  }

  lemma FlattenNil(b: Book, side: Side)
    ensures Flatten(b, side, []) == []
  {
  }

  lemma FlattenCons(b: Book, side: Side, keys: seq<int>)
    requires keys != []
    ensures Flatten(b, side, keys) == LiveOf(b.orders, LevelAt(b, side, keys[0])) + Flatten(b, side, keys[1..])
  {
  }

  lemma LevelSorted(b: Book, side: Side, key: int)
    requires WellFormed(b)
    ensures InPriority(LiveOf(b.orders, LevelAt(b, side, key)))
  {
    LiveOfSorted(b.orders, LevelAt(b, side, key), side, Key(side, key));
  }

  /** The levels, best first, are the resting orders in price-time priority. */
  lemma BookIsQueue(b: Book, side: Side)
    requires WellFormed(b)
    ensures IsQueue(b.orders, b.resting, side, QueueOf(b, side))
    ensures AllLive(QueueOf(b, side))
  {
    var keys, q := Heap(b, side), QueueOf(b, side);
    assert Increases(keys);
    FlattenSorted(b, side, keys);
    hide LiveOf, Flatten, Before, InPriority;
    forall o ensures o in q <==> o.id in b.resting && o.id in b.orders && b.orders[o.id] == o && o.side == side {
      FlattenMembers(b, side, keys, o);
      if o in q {
        var i :| 0 <= i < |keys| && o in LiveOf(b.orders, LevelAt(b, side, keys[i]));
        LevelFacts(b, side, keys[i], o);
      }
      if o.id in b.resting && o.id in b.orders && b.orders[o.id] == o && o.side == side {
        RestingIsFlat(b, side, o);
      }
    }
    forall i | 0 <= i < |q| ensures IsLive(q[i]) {
      assert q[i] in q;
    }
  }

  lemma RestingIsFlat(b: Book, side: Side, o: Order)
    requires WellFormed(b) && o.id in b.resting && o.id in b.orders && b.orders[o.id] == o && o.side == side
    ensures o in Flatten(b, side, Heap(b, side))
    ensures IsLive(o)
  {
    hide LiveOf, Flatten;
    assert Queued(b, o.id);
    var keys := Heap(b, side);
    var key := Key(side, o.price.value);
    assert (side, o.price.value) in b.levels && key in keys;
    var i :| 0 <= i < |keys| && keys[i] == key;
    assert o.id in LevelAt(b, side, keys[i]);
    LiveOfMembers(b.orders, LevelAt(b, side, keys[i]), o);
    FlattenMembers(b, side, keys, o);
  }

  /** Two books with the same resting orders show the same queues. */
  lemma SameQueue(b: Book, c: Book, side: Side)
    requires WellFormed(b) && WellFormed(c) && b.orders == c.orders && b.resting == c.resting
    ensures QueueOf(b, side) == QueueOf(c, side)
  {
    BookIsQueue(b, side);
    BookIsQueue(c, side);
    QueueIsUnique(b.orders, b.resting, side, QueueOf(b, side), QueueOf(c, side));
  }

  lemma SameQueues(b: Book, c: Book)
    requires WellFormed(b) && WellFormed(c) && b.orders == c.orders && b.resting == c.resting
    ensures forall side :: QueueOf(b, side) == QueueOf(c, side)
  {
    hide *;
    forall side ensures QueueOf(b, side) == QueueOf(c, side) {
      SameQueue(b, c, side);
    }
  }

  // ---------------------------------------------------------------- steps on the book

  /** `price` is the top of the side's heap and its level has a live order. */
  ghost predicate IsBest(b: Book, side: Side, price: int) {
    && Heap(b, side) != [] && Heap(b, side)[0] == Key(side, price)
    && (side, price) in b.levels && HasLive(b.orders, b.levels[(side, price)])
  }

  ghost predicate HasLive(orders: Orders, ids: seq<string>) {
    exists i :: 0 <= i < |ids| && ids[i] in orders && IsLive(orders[ids[i]])
  }

  lemma BestIsHead(b: Book, side: Side, price: int)
    requires WellFormed(b) && IsBest(b, side, price)
    ensures QueueOf(b, side) != [] && PriceOf(QueueOf(b, side)[0]) == price
  {
    hide Flatten, LiveOf;
    assert Named(b.orders);
    var keys := Heap(b, side);
    var ids := b.levels[(side, price)];
    FlattenCons(b, side, keys);
    var i :| 0 <= i < |ids| && ids[i] in b.orders && IsLive(b.orders[ids[i]]);
    LiveOfMembers(b.orders, ids, b.orders[ids[i]]);
    hide WellFormed, IsLive;
    var head := LiveOf(b.orders, LevelAt(b, side, keys[0]));
    LevelFacts(b, side, keys[0], head[0]);
  }

  lemma EmptyHeap(b: Book, side: Side)
    requires Heap(b, side) == []
    ensures QueueOf(b, side) == []
  {
  }

  /** The live head of the best level is the best order of the side. */
  lemma FrontIsHead(b: Book, side: Side, price: int)
    requires WellFormed(b) && Heap(b, side) != [] && Heap(b, side)[0] == Key(side, price)
    requires (side, price) in b.levels && b.levels[(side, price)] != []
    requires var m := b.levels[(side, price)][0]; m in b.orders && IsLive(b.orders[m])
    ensures QueueOf(b, side) != [] && QueueOf(b, side)[0] == b.orders[b.levels[(side, price)][0]]
  {
    hide WellFormed, Flatten, LiveOf;
    var ids := b.levels[(side, price)];
    FlattenCons(b, side, Heap(b, side));
    LiveFront(b.orders, ids);
    assert LevelAt(b, side, Key(side, price)) == ids;
  }

  lemma LiveFront(orders: Orders, ids: seq<string>)
    requires ids != [] && ids[0] in orders && IsLive(orders[ids[0]])
    ensures LiveOf(orders, ids) != [] && LiveOf(orders, ids)[0] == orders[ids[0]]
  {
  }

  /** Drop the best level of a side. */
  ghost function PopLevel(b: Book, side: Side): Book
    requires Heap(b, side) != []
  {
    var keys := Heap(b, side);
    var l := (side, Key(side, keys[0]));
    if side == Buy then b.(bids := keys[1..], levels := b.levels - {l})
       else b.(asks := keys[1..], levels := b.levels - {l})
  }

  lemma PopLevelKeeps(b: Book, side: Side)
    requires WellFormed(b) && Heap(b, side) != []
    requires var l := (side, Key(side, Heap(b, side)[0])); l in b.levels ==> !HasLive(b.orders, b.levels[l])
    ensures WellFormed(PopLevel(b, side))
  {
    hide LevelOk;
    PopLevelHeaps(b, side);
    hide HeapsMatch;
    forall id {
      PopLevelQueued(b, side, id);
    }
  }

  /** Popping a level without live orders hides no live order. */
  lemma PopLevelQueued(b: Book, side: Side, id: string)
    requires Heap(b, side) != []
    requires var l := (side, Key(side, Heap(b, side)[0])); l in b.levels ==> !HasLive(b.orders, b.levels[l])
    ensures var c := PopLevel(b, side);
            Queued(c, id) && IsLive(c.orders[id]) <==> Queued(b, id) && IsLive(b.orders[id])
  {
    var l := (side, Key(side, Heap(b, side)[0]));
    if Queued(b, id) && LevelOf(b.orders[id]) == l {
      LiveInLevel(b.orders, b.levels[l], id);
    }
  }

  function LevelOf(o: Order): Level {
    (o.side, PriceOf(o))
  }

  lemma LiveInLevel(orders: Orders, ids: seq<string>, id: string)
    requires id in ids && id in orders
    ensures IsLive(orders[id]) ==> HasLive(orders, ids)
  {
    var i :| 0 <= i < |ids| && ids[i] == id;
  }

  lemma PopLevelHeaps(b: Book, side: Side)
    requires HeapsMatch(b) && Heap(b, side) != []
    ensures HeapsMatch(PopLevel(b, side))
  {
    var keys, c := Heap(b, side), PopLevel(b, side);
    var l := (side, Key(side, keys[0]));
    assert keys == [keys[0]] + keys[1..];
    forall m: Level ensures m in c.levels <==> Key(m.0, m.1) in Heap(c, m.0) {
      assert m in b.levels <==> Key(m.0, m.1) in Heap(b, m.0);
      assert m.0 == side ==> (m == l <==> Key(m.0, m.1) == keys[0]);
    }
  }

  /** Drop the front of a level. */
  ghost function PopFront(b: Book, l: Level): Book
    requires l in b.levels && b.levels[l] != []
  {
    b.(levels := b.levels[l := b.levels[l][1..]])
  }

  lemma PopFrontKeeps(b: Book, l: Level)
    requires WellFormed(b) && l in b.levels && b.levels[l] != []
    requires b.levels[l][0] in b.orders && !IsLive(b.orders[b.levels[l][0]])
    ensures WellFormed(PopFront(b, l))
    ensures HasLive(b.orders, b.levels[l]) ==> HasLive(b.orders, PopFront(b, l).levels[l])
  {
    var c := PopFront(b, l);
    var ids := b.levels[l];
    LevelTail(b.orders, l, ids);
    hide LevelOk, InSequence;
    assert LevelsMatch(c) && HeapsMatch(c);
    hide HeapsMatch, LevelsMatch;
    forall id ensures Queued(c, id) && IsLive(c.orders[id]) <==> Queued(b, id) && IsLive(b.orders[id]) {
    }
    if HasLive(b.orders, ids) {
      var i :| 0 <= i < |ids| && ids[i] in b.orders && IsLive(b.orders[ids[i]]);
      LiveInLevel(b.orders, ids[1..], ids[i]);
    }
  }

  /** The front of a level trades `take` with the order `takerId`, which is not queued. */
  ghost function FillFront(b: Book, l: Level, takerId: string, take: nat): Book
    requires l in b.levels && b.levels[l] != [] && b.levels[l][0] in b.orders && takerId in b.orders
    requires take <= b.orders[b.levels[l][0]].remaining && take <= b.orders[takerId].remaining
  {
    var m := b.levels[l][0];
    var t := b.orders[takerId];
    var orders := b.orders[takerId := t.(remaining := t.remaining - take)][m := FillOne(b.orders[m], take)];
    if take == b.orders[m].remaining
    then b.(orders := orders, levels := b.levels[l := b.levels[l][1..]], resting := b.resting - {m})
    else b.(orders := orders)
  }

  lemma FillFrontKeeps(b: Book, l: Level, takerId: string, take: nat)
    requires WellFormed(b) && l in b.levels && b.levels[l] != [] && takerId in b.orders && !Queued(b, takerId)
    requires b.levels[l][0] in b.orders && IsLive(b.orders[b.levels[l][0]])
    requires 0 < take <= b.orders[b.levels[l][0]].remaining && take <= b.orders[takerId].remaining
    ensures WellFormed(FillFront(b, l, takerId, take)) && !Queued(FillFront(b, l, takerId, take), takerId)
    ensures b.levels[l][0] != takerId && b.levels[l][0] in b.resting
    ensures LevelOf(b.orders[b.levels[l][0]]) == l
  {
    var c := FillFront(b, l, takerId, take);
    var m := b.levels[l][0];
    LevelTail(b.orders, l, b.levels[l]);
    assert LevelOk(b.orders, l, b.levels[l]) && m in b.levels[l];
    assert Queued(b, m);
    FillFrontLevels(b, l, takerId, take);
    hide HeapsMatch, LevelsMatch, LevelOk;
    forall id ensures id in c.resting <==> Queued(c, id) && IsLive(c.orders[id]) {
      assert id in b.resting <==> Queued(b, id) && IsLive(b.orders[id]);
      assert id != m ==> (Queued(c, id) <==> Queued(b, id));
    }
  }

  lemma FillFrontTerms(b: Book, l: Level, takerId: string, take: nat)
    requires Named(b.orders) && l in b.levels && b.levels[l] != [] && takerId in b.orders
    requires b.levels[l][0] in b.orders
    requires 0 < take <= b.orders[b.levels[l][0]].remaining && take <= b.orders[takerId].remaining
    ensures Named(FillFront(b, l, takerId, take).orders) && SameTerms(b.orders, FillFront(b, l, takerId, take).orders)
  {
  }

  lemma FillFrontLevels(b: Book, l: Level, takerId: string, take: nat)
    requires WellFormed(b) && l in b.levels && b.levels[l] != [] && takerId in b.orders
    requires b.levels[l][0] in b.orders
    requires 0 < take <= b.orders[b.levels[l][0]].remaining && take <= b.orders[takerId].remaining
    ensures HeapsMatch(FillFront(b, l, takerId, take)) && LevelsMatch(FillFront(b, l, takerId, take))
    ensures Named(FillFront(b, l, takerId, take).orders) && SameTerms(b.orders, FillFront(b, l, takerId, take).orders)
  {
    var c := FillFront(b, l, takerId, take);
    LevelTail(b.orders, l, b.levels[l]);
    FillFrontTerms(b, l, takerId, take);
    hide LevelOk, RestingMatches, SameTerms, FillOne, Named;
    forall m: Level | m in c.levels ensures LevelOk(c.orders, m, c.levels[m]) {
      LevelTerms(b.orders, c.orders, m, c.levels[m]);
    }
  }

  /** The queue of the traded side after that: its head traded, the rest as before. */
  lemma FillMovesQueue(orders: Orders, resting: set<string>, side: Side, q: seq<Order>, take: nat, taker: Order,
                       orders': Orders, resting': set<string>)
    requires Named(orders) && IsQueue(orders, resting, side, q) && q != [] && 0 < take <= q[0].remaining
    requires taker.id !in resting
    requires orders' == orders[taker.id := taker][q[0].id := FillOne(q[0], take)]
    requires resting' == if take == q[0].remaining then resting - {q[0].id} else resting
    ensures IsQueue(orders', resting', side, AfterHead(q, take))
  {
    var m := q[0];
    var r := AfterHead(q, take);
    assert m in q;
    forall i | 0 < i < |q| ensures q[i].id != m.id {
      assert q[i] in q && Before(m, q[i]);
    }
    assert InPriority(r);
    forall o ensures o in r <==> o.id in resting' && o.id in orders' && orders'[o.id] == o && o.side == side {
      assert o in q[1..] <==> o in q && o.id != m.id by {
        if o in q && o.id != m.id {
          var i :| 0 <= i < |q| && q[i] == o;
          assert q[1..][i - 1] == o;
        }
      }
    }
  }

  // ---------------------------------------------------------------- the matching loop

  /** What a sweep has done so far: the fills are a prefix of the specified sweep and the present
      book is exactly what continues it. */
  ghost predicate Matching(start: Book, taker: Order, fills: seq<Fill>, b: Book) {
    && WellFormed(b) && taker.id in b.orders && !Queued(b, taker.id) && taker.id in start.orders &&
       taker.id !in start.resting
    && AllLive(QueueOf(start, Opposite(taker.side))) && AllLive(QueueOf(b, Opposite(taker.side)))
    && Sweep(QueueOf(start, Opposite(taker.side)), taker.remaining, taker) ==
       Extended(fills, Sweep(QueueOf(b, Opposite(taker.side)), b.orders[taker.id].remaining, taker))
    && b.orders == AfterFills(start.orders, fills)[taker.id := taker.(remaining := b.orders[taker.id].remaining)]
    && b.resting == StillLive(start.resting, b.orders)
    && MakersOf(start, Opposite(taker.side), fills)
  }

  ghost function StillLive(resting: set<string>, orders: Orders): set<string> {
    set id | id in resting && id in orders && IsLive(orders[id])
  }

  ghost predicate MakersOf(start: Book, side: Side, fills: seq<Fill>) {
    forall i :: 0 <= i < |fills| ==>
      fills[i].maker in start.resting && fills[i].maker in start.orders && start.orders[fills[i].maker].side == side
  }

  lemma MatchStarts(b: Book, taker: Order)
    requires WellFormed(b) && taker.id in b.orders && b.orders[taker.id] == taker && !Queued(b, taker.id)
    ensures Matching(b, taker, [], b)
  {
    BookIsQueue(b, Opposite(taker.side));
    hide Sweep, QueueOf;
    var r := Sweep(QueueOf(b, Opposite(taker.side)), taker.remaining, taker);
    assert Extended([], r) == r;
    assert b.orders == b.orders[taker.id := taker];
    assert b.resting == StillLive(b.resting, b.orders);
  }

  /** Dropping dead orders or dead levels changes nothing the sweep can see. */
  lemma MatchDrops(start: Book, taker: Order, fills: seq<Fill>, b: Book, c: Book)
    requires Matching(start, taker, fills, b) && WellFormed(c) && c.orders == b.orders && c.resting == b.resting
    requires forall id :: Queued(c, id) ==> Queued(b, id)
    ensures Matching(start, taker, fills, c)
  {
    SameQueue(b, c, Opposite(taker.side));
    hide Sweep, QueueOf, AfterFills, Queued, WellFormed;
  }

  /** Trading with the live front of the best crossing level is one turn of the sweep. */
  lemma MatchFills(start: Book, taker: Order, fills: seq<Fill>, b: Book, price: int, take: nat)
    requires Matching(start, taker, fills, b)
    requires var l := (Opposite(taker.side), price);
             && Heap(b, l.0) != [] && Heap(b, l.0)[0] == Key(l.0, price)
             && l in b.levels && b.levels[l] != []
             && b.levels[l][0] in b.orders && IsLive(b.orders[b.levels[l][0]])
             && take == Min(b.orders[taker.id].remaining, b.orders[b.levels[l][0]].remaining)
    requires b.orders[taker.id].remaining > 0 && Crosses(taker, price)
    ensures var l := (Opposite(taker.side), price); var m := b.levels[l][0];
            && take > 0
            && Matching(start, taker, fills + [Fill(m, price, take)], FillFront(b, l, taker.id, take))
  {
    hide QueueOf, WellFormed, Sweep, AfterHead, Queued, AfterFills, FillFront, AllLive, Heap, Key, Extended, Preceded,
        FillOne;
    var side := Opposite(taker.side);
    var l := (side, price);
    var m := b.levels[l][0];
    var c := FillFront(b, l, taker.id, take);
    var fill := Fill(m, price, take);
    FrontIsHead(b, side, price);
    FillFrontKeeps(b, l, taker.id, take);
    FillFrontIs(b, l, taker.id, take);
    var q := QueueOf(b, side);
    FillIsHead(b, side, taker, l, take);
    var left := b.orders[taker.id].remaining;
    SweepStep(q, left, taker, take);
    ExtendOne(fills, fill, Sweep(AfterHead(q, take), left - take, taker));
    FillOrders(start.orders, fills, fill, taker, b.orders, left, c.orders);
    FillResting(start, fills, b, m, taker, c);
    AfterFillsTerms(start.orders, fills);
    MoreMakers(start, side, fills, fill, b.orders, taker.id);
  }

  lemma MoreMakers(start: Book, side: Side, fills: seq<Fill>, fill: Fill, orders: Orders, takerId: string)
    requires MakersOf(start, side, fills) && fill.maker in start.resting && fill.maker != takerId
    requires SameTerms(start.orders, AfterFills(start.orders, fills)) && fill.maker in orders &&
             orders[fill.maker].side == side
    requires forall id :: id != takerId && id in orders ==>
               id in start.orders && orders[id] == AfterFills(start.orders, fills)[id]
    ensures MakersOf(start, side, fills + [fill])
  {
    hide AfterFills;
  }

  /** Fills change an order's remaining quantity and status, nothing else. */
  lemma {:induction false} AfterFillsTerms(orders: Orders, fills: seq<Fill>)
    ensures SameTerms(orders, AfterFills(orders, fills))
    ensures forall id :: id in orders ==>
              var o, p := orders[id], AfterFills(orders, fills)[id];
              p == o.(remaining := p.remaining, status := p.status) && p.remaining <= o.remaining
  {
    if fills != [] {
      AfterFillsTerms(orders, fills[..|fills| - 1]);
    }
  }

  lemma FillFrontIs(b: Book, l: Level, takerId: string, take: nat)
    requires l in b.levels && b.levels[l] != [] && b.levels[l][0] in b.orders && takerId in b.orders
    requires take <= b.orders[b.levels[l][0]].remaining && take <= b.orders[takerId].remaining
    ensures var c, m := FillFront(b, l, takerId, take), b.levels[l][0];
            && c.orders == b.orders[takerId := b.orders[takerId].(remaining := b.orders[takerId].remaining - take)][m :=
                    FillOne(b.orders[m], take)]
            && c.resting == (if take == b.orders[m].remaining then b.resting - {m} else b.resting)
            && (IsLive(b.orders[m]) ==> (IsLive(FillOne(b.orders[m], take)) <==> take != b.orders[m].remaining))
  {
  }

  lemma NotResting(b: Book, id: string)
    requires WellFormed(b) && !Queued(b, id)
    ensures id !in b.resting && Named(b.orders)
  {
  }

  lemma FillIsHead(b: Book, side: Side, taker: Order, l: Level, take: nat)
    requires WellFormed(b) && l == (side, l.1) && l in b.levels && b.levels[l] != [] && taker.id in b.orders &&
             !Queued(b, taker.id)
    requires b.levels[l][0] in b.orders && QueueOf(b, side) != [] && QueueOf(b, side)[0] == b.orders[b.levels[l][0]]
    requires 0 < take <= QueueOf(b, side)[0].remaining && take <= b.orders[taker.id].remaining
    requires WellFormed(FillFront(b, l, taker.id, take)) && b.levels[l][0] != taker.id
    ensures QueueOf(FillFront(b, l, taker.id, take), side) == AfterHead(QueueOf(b, side), take)
    ensures AllLive(AfterHead(QueueOf(b, side), take)) && QueueOf(b, side)[0].id == b.levels[l][0]
  {
    hide *;
    var c := FillFront(b, l, taker.id, take);
    BookIsQueue(b, side);
    BookIsQueue(c, side);
    NotResting(b, taker.id);
    FillFrontIs(b, l, taker.id, take);
    var q, t := QueueOf(b, side), b.orders[taker.id];
    NameOf(b.orders, b.levels[l][0]);
    NameOf(b.orders, taker.id);
    FillMovesQueue(b.orders, b.resting, side, q, take, t.(remaining := t.remaining - take), c.orders, c.resting);
    QueueIsUnique(c.orders, c.resting, side, QueueOf(c, side), AfterHead(q, take));
    AfterHeadIsLive(q, take);
  }

  lemma NameOf(orders: Orders, id: string)
    requires Named(orders) && id in orders
    ensures orders[id].id == id
  {
  }

  lemma FillOrders(start: Orders, fills: seq<Fill>, fill: Fill, taker: Order, orders: Orders, left: nat,
                   orders': Orders)
    requires orders == AfterFills(start, fills)[taker.id := taker.(remaining := left)] && taker.id in start
    requires fill.maker in orders && fill.maker != taker.id && fill.quantity <= orders[fill.maker].remaining &&
             fill.quantity <= left
    requires orders' == orders[taker.id := orders[taker.id].(remaining := left - fill.quantity)][fill.maker :=
               FillOne(orders[fill.maker], fill.quantity)]
    ensures orders' == AfterFills(start, fills + [fill])[taker.id := taker.(remaining := left - fill.quantity)]
  {
    assert (fills + [fill])[..|fills|] == fills;
  }

  lemma FillResting(start: Book, fills: seq<Fill>, b: Book, m: string, taker: Order, c: Book)
    requires b.resting == StillLive(start.resting, b.orders) && m in b.resting && m != taker.id &&
             taker.id !in start.resting
    requires m in c.orders && c.orders.Keys == b.orders.Keys
    requires forall id :: id in b.orders && id != m && id != taker.id ==> c.orders[id] == b.orders[id]
    requires c.resting == if IsLive(c.orders[m]) then b.resting else b.resting - {m}
    ensures c.resting == StillLive(start.resting, c.orders)
  {
  }

  /** The sweep is over when the taker is filled or nothing left crosses. */
  lemma MatchEnds(start: Book, taker: Order, fills: seq<Fill>, b: Book)
    requires Matching(start, taker, fills, b)
    requires var q := QueueOf(b, Opposite(taker.side));
             b.orders[taker.id].remaining == 0 || q == [] || !Crosses(taker, PriceOf(q[0]))
    ensures Sweep(QueueOf(start, Opposite(taker.side)), taker.remaining, taker) ==
            Outcome(fills, b.orders[taker.id].remaining, QueueOf(b, Opposite(taker.side)))
  {
    hide QueueOf, WellFormed, AfterFills, StillLive, Queued;
    assert fills + [] == fills;
  }

  // ---------------------------------------------------------------- resting and cancelling

  function InsertKey(keys: seq<int>, key: int): seq<int> {
    if keys == [] || key < keys[0] then [key] + keys else [keys[0]] + InsertKey(keys[1..], key)
  }

  lemma {:induction false} InsertKeyKeeps(keys: seq<int>, key: int)
    requires Increases(keys) && key !in keys
    ensures Increases(InsertKey(keys, key))
    ensures forall k :: k in InsertKey(keys, key) <==> k in keys || k == key
  {
    if keys != [] && key >= keys[0] {
      var tail := keys[1..];
      TailIncreases(keys);
      InsertKeyKeeps(tail, key);
      var rest := InsertKey(tail, key);
      hide InsertKey;
      forall i | 0 <= i < |rest| ensures keys[0] < rest[i] {
        assert rest[i] in rest;
      }
      assert Increases([keys[0]] + rest);
      assert keys == [keys[0]] + tail;
    } else {
      assert forall i :: 0 <= i < |keys| ==> key < keys[i];
    }
  }

  lemma TailIncreases(keys: seq<int>)
    requires Increases(keys) && keys != []
    ensures Increases(keys[1..]) && forall k :: k in keys[1..] ==> k in keys && keys[0] < k
  {
    forall k | k in keys[1..] ensures k in keys && keys[0] < k {
      var i :| 0 <= i < |keys| - 1 && keys[1..][i] == k;
      assert keys[i + 1] == k;
    }
  }

  /** The book with one more resting order: at the back of its level, which is opened if need be. */
  ghost function Rested(b: Book, o: Order): Book
    requires o.price.Some?
  {
    var l := (o.side, o.price.value);
    var c := b.(resting := b.resting + {o.id}, levels :=
                b.levels[l := (if l in b.levels then b.levels[l] else []) + [o.id]]);
    if l in b.levels then c
    else if o.side == Buy then c.(bids := InsertKey(b.bids, Key(Buy, l.1)))
    else c.(asks := InsertKey(b.asks, Key(Sell, l.1)))
  }

  /** The newest sequence goes to the back of its price, which is what time priority asks for. */
  lemma RestedKeeps(b: Book, id: string)
    requires WellFormed(b) && id in b.orders && b.orders[id].price.Some? && !Queued(b, id) && IsLive(b.orders[id])
    requires forall x :: Queued(b, x) ==> b.orders[x].sequence < b.orders[id].sequence
    ensures WellFormed(Rested(b, b.orders[id]))
  {
    hide LevelOk, HeapsMatch, LevelsMatch, Rested, Queued, InsertKey, IsLive;
    var o := b.orders[id];
    var c := Rested(b, o);
    RestedHeaps(b, o);
    RestedLevels(b, id);
    RestedIs(b, o);
    forall x ensures (Queued(c, x) <==> Queued(b, x) || x == id) && (Queued(c, x) ==> x in c.orders) {
      RestedQueued(b, id, x);
    }
    assert RestingMatches(c);
  }

  lemma RestedIs(b: Book, o: Order)
    requires o.price.Some?
    ensures Rested(b, o).resting == b.resting + {o.id} && Rested(b, o).orders == b.orders
  {
  }

  lemma RestedQueued(b: Book, id: string, x: string)
    requires Named(b.orders) && id in b.orders && b.orders[id].price.Some?
    ensures Queued(Rested(b, b.orders[id]), x) <==> Queued(b, x) || x == id
    ensures Queued(b, x) ==> x in b.orders
  {
    hide InsertKey;
    var o := b.orders[id];
    var l := (o.side, o.price.value);
    var c := Rested(b, o);
    if x in b.orders && b.orders[x].price.Some? && (b.orders[x].side, b.orders[x].price.value) == l {
      assert x in c.levels[l] <==> x == id || (l in b.levels && x in b.levels[l]);
    }
  }

  lemma RestedLevels(b: Book, id: string)
    requires LevelsMatch(b) && Named(b.orders) && id in b.orders && b.orders[id].price.Some?
    requires forall x :: Queued(b, x) ==> b.orders[x].sequence < b.orders[id].sequence
    ensures LevelsMatch(Rested(b, b.orders[id]))
  {
    var o := b.orders[id];
    var l := (o.side, o.price.value);
    var c := Rested(b, o);
    hide InsertKey;
    if l in b.levels {
      assert LevelOk(b.orders, l, b.levels[l]);
      forall i | 0 <= i < |b.levels[l]| ensures b.orders[b.levels[l][i]].sequence < o.sequence {
        assert b.levels[l][i] in b.levels[l];
        assert Queued(b, b.levels[l][i]);
      }
    }
    hide Queued;
    assert LevelOk(b.orders, l, c.levels[l]);
  }

  lemma RestedHeaps(b: Book, o: Order)
    requires HeapsMatch(b) && o.price.Some?
    ensures HeapsMatch(Rested(b, o))
  {
    var l := (o.side, o.price.value);
    var c := Rested(b, o);
    var key := Key(l.0, l.1);
    if l !in b.levels {
      assert key !in Heap(b, l.0);
      InsertKeyKeeps(Heap(b, l.0), key);
    }
    hide InsertKey;
    forall m: Level ensures m in c.levels <==> Key(m.0, m.1) in Heap(c, m.0) {
      assert m in b.levels <==> Key(m.0, m.1) in Heap(b, m.0);
      assert m.0 == l.0 ==> (m == l <==> Key(m.0, m.1) == key);
    }
  }

  /** A lazy cancel: the order stays in its queue, flagged dead. */
  ghost function CancelledIn(b: Book, id: string): Book
    requires id in b.orders
  {
    b.(orders := b.orders[id := b.orders[id].(status := Cancelled)], resting := b.resting - {id})
  }

  lemma CancelKeeps(b: Book, id: string)
    requires WellFormed(b) && id in b.orders
    ensures WellFormed(CancelledIn(b, id))
  {
    var c := CancelledIn(b, id);
    assert SameTerms(b.orders, c.orders);
    forall l: Level | l in c.levels ensures LevelOk(c.orders, l, c.levels[l]) {
      LevelTerms(b.orders, c.orders, l, c.levels[l]);
    }
    hide LevelOk, HeapsMatch, LevelsMatch, SameTerms;
    forall x ensures x in c.resting <==> Queued(c, x) && IsLive(c.orders[x]) {
      assert x in b.resting <==> Queued(b, x) && IsLive(b.orders[x]);
      assert Queued(c, x) <==> Queued(b, x);
    }
  }

  // ---------------------------------------------------------------- small facts for the loops

  lemma KeyTwice(side: Side, key: int)
    ensures Key(side, Key(side, key)) == key
  {
  }

  lemma TopIsBest(b: Book, side: Side, price: int)
    requires Heap(b, side) != [] && Heap(b, side)[0] == Key(side, price)
    requires (side, price) in b.levels && HasLive(b.orders, b.levels[(side, price)])
    ensures IsBest(b, side, price)
  {
  }

  lemma BestFacts(b: Book, side: Side, price: int)
    requires IsBest(b, side, price)
    ensures Heap(b, side) != [] && Heap(b, side)[0] == Key(side, price)
    ensures (side, price) in b.levels && HasLive(b.orders, b.levels[(side, price)])
  {
  }

  lemma Popped(b: Book, side: Side)
    requires Heap(b, side) != []
    ensures PopLevel(b, side).orders == b.orders && PopLevel(b, side).resting == b.resting
    ensures |Heap(PopLevel(b, side), side)| < |Heap(b, side)|
    ensures forall id :: Queued(PopLevel(b, side), id) ==> Queued(b, id)
  {
  }

  lemma PopFrontFacts(b: Book, l: Level)
    requires l in b.levels && b.levels[l] != []
    ensures forall id :: Queued(PopFront(b, l), id) ==> Queued(b, id)
    ensures PopFront(b, l) == Book(b.bids, b.asks, b.levels[l := b.levels[l][1..]], b.orders, b.resting)
    ensures forall side :: Heap(PopFront(b, l), side) == Heap(b, side)
  {
    forall id | Queued(PopFront(b, l), id) ensures Queued(b, id) {
      var m := LevelOf(b.orders[id]);
      if m == l {
        assert id in b.levels[l][1..];
      }
    }
  }

  lemma TakerFacts(start: Book, taker: Order, fills: seq<Fill>, b: Book)
    requires Matching(start, taker, fills, b)
    ensures taker.id in b.orders && !Queued(b, taker.id) &&
            b.orders[taker.id] == taker.(remaining := b.orders[taker.id].remaining)
    ensures WellFormed(b)
    ensures AllLive(QueueOf(b, Opposite(taker.side)))
  {
  }

  lemma FrontExists(b: Book, l: Level)
    requires WellFormed(b) && l in b.levels && b.levels[l] != []
    ensures b.levels[l][0] in b.orders
  {
    assert LevelOk(b.orders, l, b.levels[l]);
  }

  lemma MinIs(a: nat, b: nat)
    ensures Min(a, b) == (if a <= b then a else b)
  {
  }

  lemma NoneLive(orders: Orders)
    ensures !HasLive(orders, [])
  {
  }

  lemma LiveMeans(o: Order)
    requires IsLive(o)
    ensures o.remaining > 0
  {
  }

  lemma FillFrontFacts(b: Book, l: Level, takerId: string, take: nat)
    requires l in b.levels && b.levels[l] != [] && b.levels[l][0] in b.orders && takerId in b.orders
    requires take <= b.orders[b.levels[l][0]].remaining && take <= b.orders[takerId].remaining
    ensures forall side :: Heap(FillFront(b, l, takerId, take), side) == Heap(b, side)
    ensures l in FillFront(b, l, takerId, take).levels
  {
  }

  /** The trades of the fills from number `from` on. */
  function TradesFrom(symbol: string, taker: Order, fills: seq<Fill>, from: nat): seq<Trade> {
    if from <= |fills| then TradesOf(symbol, taker, fills)[from..] else []
  }

  lemma NoTradesYet(symbol: string, taker: Order, fills: seq<Fill>)
    ensures TradesFrom(symbol, taker, fills, |fills|) == []
  {
  }

  lemma OneMoreTrade(symbol: string, taker: Order, now: Order, fills: seq<Fill>, from: nat, fill: Fill)
    requires from <= |fills| && now == taker.(remaining := now.remaining)
    ensures |TradesFrom(symbol, taker, fills, from)| == |fills| - from
    ensures TradesFrom(symbol, taker, fills + [fill], from) ==
            TradesFrom(symbol, taker, fills, from) + [TradeOf(symbol, now, fill, |fills| + 1)]
  {
    assert TradesOf(symbol, taker, fills + [fill]) ==
           TradesOf(symbol, taker, fills) + [TradeOf(symbol, taker, fill, |fills| + 1)];
  }

  lemma TradesJoin(symbol: string, taker: Order, fills: seq<Fill>, more: seq<Fill>)
    requires fills <= more
    ensures TradesOf(symbol, taker, fills) + TradesFrom(symbol, taker, more, |fills|) == TradesOf(symbol, taker, more)
    ensures |TradesOf(symbol, taker, fills)| == |fills|
  {
  }

  // ---------------------------------------------------------------- the class

  class OrderBook {
    var bids: seq<int>  // negated prices, a min-heap: the best bid is first
    var asks: seq<int>
    var levels: map<Level, seq<string>>
    var orders: Orders
    var resting: set<string>

    ghost function Snap(): (b: Book)
      reads this
      ensures b == Book(bids, asks, levels, orders, resting)
    {
      Book(bids, asks, levels, orders, resting)
    }

    ghost predicate Valid()
      reads this
    {
      WellFormed(Snap())
    }

    constructor ()
      ensures Valid() && orders == map[] && resting == {}
    {
      bids, asks, levels, orders, resting := [], [], map[], map[], {};
    }

    /** `any(is_live(o) for o in level)`. */
    method AnyLive(ids: seq<string>) returns (any: bool)
      ensures any <==> HasLive(orders, ids)
    {
      for i := 0 to |ids|
        invariant !HasLive(orders, ids[..i])
      {
        if ids[i] in orders && IsLive(orders[ids[i]]) {
          return true;
        }
        assert forall j :: 0 <= j < i ==> ids[..i][j] == ids[j];
      }
      assert ids[..|ids|] == ids;
      return false;
    }

    /** Best price of a side; levels with nothing live left are discarded on the way. */
    method Best(side: Side) returns (price: Option<int>)
      requires Valid()
      modifies this`bids, this`asks, this`levels
      ensures Valid()
      ensures forall id :: Queued(Snap(), id) ==> Queued(old(Snap()), id)
      ensures forall s :: QueueOf(Snap(), s) == QueueOf(old(Snap()), s)
      ensures price.None? <==> QueueOf(Snap(), side) == []
      ensures price.Some? ==> IsBest(Snap(), side, price.value) && PriceOf(QueueOf(Snap(), side)[0]) == price.value
    {
      hide *;
      Unpack();
      ghost var start := Snap();
      while HeapOf(side) != []
        invariant Valid() && orders == start.orders && resting == start.resting
        invariant forall id :: Queued(Snap(), id) ==> Queued(start, id)
        decreases |HeapOf(side)|
      {
        Unpack();
        var top := Key(side, HeapOf(side)[0]);
        var l := (side, top);
        KeyTwice(side, HeapOf(side)[0]);
        if l in levels {
          var any := AnyLive(levels[l]);
          if any {
            TopIsBest(Snap(), side, top);
            BestIsHead(Snap(), side, top);
            SameQueues(start, Snap());
            return Some(top);
          }
        }
        PopLevelKeeps(Snap(), side);
        Popped(Snap(), side);
        Discard(side);
      }
      Unpack();
      EmptyHeap(Snap(), side);
      SameQueues(start, Snap());
      return None;
    }

    /** `heapq.heappop` and the removal of its level. */
    method Discard(side: Side)
      requires Heap(Snap(), side) != [] && WellFormed(PopLevel(Snap(), side))
      modifies this`bids, this`asks, this`levels
      ensures Snap() == PopLevel(old(Snap()), side) && Valid()
    {
      hide WellFormed;
      if side == Buy {
        levels := levels - {(side, Key(side, bids[0]))};
        bids := bids[1..];
      } else {
        levels := levels - {(side, Key(side, asks[0]))};
        asks := asks[1..];
      }
    }

    function HeapOf(side: Side): (h: seq<int>)
      reads this
      ensures h == Heap(Snap(), side)
    {
      if side == Buy then bids else asks
    }

    lemma Unpack()
      requires Valid()
      ensures WellFormed(Snap())
    {
    }

    lemma Repack()
      requires WellFormed(Snap())
      ensures Valid()
    {
    }

    /** Trade with the best crossing level, front first, until it or the taker is used up. */
    method FillLevel(takerId: string, price: int, symbol: string, taken: nat, ghost start: Book, ghost taker: Order,
                     ghost fills: seq<Fill>)
        returns (trades: seq<Trade>, ghost more: seq<Fill>)
      requires Valid() && Matching(start, taker, fills, Snap()) && taker.id == takerId && taken == |fills|
      requires IsBest(Snap(), Opposite(taker.side), price) && Crosses(taker, price) && orders[takerId].remaining > 0
      modifies this`levels, this`orders, this`resting
      ensures Valid() && fills <= more && Matching(start, taker, more, Snap())
      ensures takerId in orders && orders[takerId].remaining < old(orders[takerId].remaining)
      ensures trades == TradesFrom(symbol, taker, more, taken)
    {
      hide *;
      trades, more := [], fills;
      TakerFacts(start, taker, fills, Snap());
      var side := Opposite(orders[takerId].side);
      var l := (side, price);
      BestFacts(Snap(), side, price);
      NoTradesYet(symbol, taker, fills);
      while levels[l] != [] && orders[takerId].remaining > 0
        invariant Valid() && Matching(start, taker, more, Snap()) && fills <= more && takerId in orders
        invariant l in levels && Heap(Snap(), side) != [] && Heap(Snap(), side)[0] == Key(side, price)
        invariant orders[takerId].remaining < old(orders[takerId].remaining)
                  || (orders[takerId].remaining == old(orders[takerId].remaining) && HasLive(orders, levels[l]))
        invariant trades == TradesFrom(symbol, taker, more, taken)
        decreases orders[takerId].remaining + |levels[l]|
      {
        var makerId := levels[l][0];
        Unpack();
        FrontExists(Snap(), l);
        var maker := orders[makerId];
        if !IsLive(maker) {
          PopFrontKeeps(Snap(), l);
          PopFrontFacts(Snap(), l);
          MatchDrops(start, taker, more, Snap(), PopFront(Snap(), l));
          levels := levels[l := levels[l][1..]];
          Repack();
          continue;
        }
        ghost var before := Snap();
        ghost var fill := Fill(makerId, price, Min(orders[takerId].remaining, maker.remaining));
        TakerFacts(start, taker, more, before);
        MinIs(orders[takerId].remaining, maker.remaining);
        LiveMeans(maker);
        MatchFills(start, taker, more, before, price, fill.quantity);
        FillFrontKeeps(before, l, takerId, fill.quantity);
        FillFrontFacts(before, l, takerId, fill.quantity);
        var quantity := if orders[takerId].remaining <= maker.remaining then orders[takerId].remaining
            else maker.remaining;
        trades := trades + [TradeOf(symbol, orders[takerId], Fill(makerId, price, quantity), taken + |trades| + 1)];
        OneMoreTrade(symbol, taker, before.orders[takerId], more, taken, fill);
        more := more + [fill];
        Execute(l, takerId, makerId, quantity);
      }
      if levels[l] == [] {
        NoneLive(orders);
      }
    }

    /** Both sides of one trade. */
    method Execute(l: Level, takerId: string, makerId: string, quantity: nat)
      requires l in levels && levels[l] != [] && levels[l][0] == makerId && makerId in orders && takerId in orders &&
               takerId != makerId
      requires quantity <= orders[makerId].remaining && quantity <= orders[takerId].remaining
      requires WellFormed(FillFront(Snap(), l, takerId, quantity))
      modifies this`levels, this`orders, this`resting
      ensures Valid() && Snap() == FillFront(old(Snap()), l, takerId, quantity)
      ensures takerId in orders && orders[takerId].remaining == old(orders[takerId].remaining) - quantity
      ensures l in levels && |levels[l]| <= |old(levels)[l]|
    {
      hide WellFormed;
      var taker, maker := orders[takerId], orders[makerId];
      var left := maker.remaining - quantity;
      orders := orders[takerId := taker.(remaining := taker.remaining - quantity)];
      if left == 0 {
        orders := orders[makerId := maker.(remaining := left, status := Filled)];
        levels := levels[l := levels[l][1..]];
        resting := resting - {makerId};
      } else {
        orders := orders[makerId := maker.(remaining := left, status := PartiallyFilled)];
      }
    }

    /** Fill the taker against the book: exactly the specified sweep of the other side's queue. */
    method Match(takerId: string, symbol: string) returns (trades: seq<Trade>, ghost fills: seq<Fill>)
      requires Valid() && takerId in orders && !Queued(Snap(), takerId)
      modifies this
      ensures Valid() && !Queued(Snap(), takerId)
      ensures var taker := old(orders[takerId]); var side := Opposite(taker.side); var q := QueueOf(old(Snap()), side);
              && AllLive(q)
              && var r := Sweep(q, taker.remaining, taker);
                 && fills == r.fills && trades == TradesOf(symbol, taker, fills)
                 && orders == AfterFills(old(orders), fills)[takerId := taker.(remaining := r.left)]
                 && resting == StillLive(old(resting), orders)
                 && QueueOf(Snap(), side) == r.queue
                 && MakersOf(old(Snap()), side, fills)
    {
      hide *;
      Unpack();
      ghost var start, taker := Snap(), orders[takerId];
      OwnName(start, takerId);
      MatchStarts(start, taker);
      trades, fills := [], [];
      ghost var none: seq<Fill> := [];
      TradesJoin(symbol, taker, none, none);
      while orders[takerId].remaining > 0
        invariant Valid() && Matching(start, taker, fills, Snap()) && takerId in orders
        invariant trades == TradesOf(symbol, taker, fills) && |trades| == |fills|
        decreases orders[takerId].remaining
      {
        var side := Opposite(orders[takerId].side);
        ghost var before := Snap();
        TakerFacts(start, taker, fills, before);
        var best := Best(side);
        Unpack();
        MatchDrops(start, taker, fills, before, Snap());
        CrossesAlike(taker, orders[takerId]);
        if best.None? || !Crosses(orders[takerId], best.value) {
          break;
        }
        var swept: seq<Trade>;
        ghost var more: seq<Fill>;
        swept, more := FillLevel(takerId, best.value, symbol, |trades|, start, taker, fills);
        TradesJoin(symbol, taker, fills, more);
        TradesJoin(symbol, taker, more, more);
        trades, fills := trades + swept, more;
      }
      TakerFacts(start, taker, fills, Snap());
      MatchEnds(start, taker, fills, Snap());
      MatchedAll(start, taker, fills, Snap());
    }

    /** Put an order at the back of its price level. A market order is refused. */
    method Rest(id: string) returns (res: Result<()>)
      requires Valid() && id in orders && !Queued(Snap(), id) && IsLive(orders[id])
      requires forall x :: Queued(Snap(), x) ==> orders[x].sequence < orders[id].sequence
      modifies this
      ensures Valid() && orders == old(orders)
      ensures orders[id].price.None? ==> res.InvalidState? && Snap() == old(Snap())
      ensures orders[id].price.Some? ==>
                res.Ok? && Snap() == Rested(old(Snap()), orders[id]) && resting == old(resting) + {id}
    {
      hide *;
      Unpack();
      var order := orders[id];
      if order.price.None? {
        return InvalidState;
      }
      RestedKeeps(Snap(), id);
      OwnName(Snap(), id);
      Enqueue(order);
      return Ok(());
    }

    method Enqueue(order: Order)
      requires order.price.Some? && WellFormed(Rested(Snap(), order))
      modifies this
      ensures Valid() && Snap() == Rested(old(Snap()), order) && orders == old(orders) &&
              resting == old(resting) + {order.id}
    {
      hide WellFormed;
      var l := (order.side, order.price.value);
      if l !in levels {
        levels := levels[l := [] + [order.id]];
        if order.side == Buy {
          bids := InsertKey(bids, Key(Buy, l.1));
        } else {
          asks := InsertKey(asks, Key(Sell, l.1));
        }
      } else {
        levels := levels[l := levels[l] + [order.id]];
      }
      resting := resting + {order.id};
    }

    /** Flag a resting order; the matching loop walks past it later. Its remaining quantity is kept. */
    method Cancel(id: string) returns (res: Result<Order>)
      requires Valid()
      modifies this`orders, this`resting
      ensures Valid()
      ensures id !in old(resting) ==> res.NotFound? && Snap() == old(Snap())
      ensures id in old(resting) ==>
                && id in old(orders) && Snap() == CancelledIn(old(Snap()), id)
                && res == Ok(old(orders[id]).(status := Cancelled))
    {
      hide WellFormed;
      if id !in resting {
        return NotFound;
      }
      RestingExists(Snap(), id);
      CancelKeeps(Snap(), id);
      var order := orders[id];
      orders := orders[id := order.(status := Cancelled)];
      resting := resting - {id};
      return Ok(orders[id]);
    }
  }

  lemma OwnName(b: Book, id: string)
    requires WellFormed(b) && id in b.orders
    ensures b.orders[id].id == id
  {
  }

  lemma RestingExists(b: Book, id: string)
    requires WellFormed(b) && id in b.resting
    ensures id in b.orders && Queued(b, id)
  {
  }

  lemma CrossesAlike(a: Order, b: Order)
    requires b == a.(remaining := b.remaining)
    ensures b.side == a.side && forall p :: Crosses(b, p) <==> Crosses(a, p)
  {
  }

  lemma MatchedAll(start: Book, taker: Order, fills: seq<Fill>, b: Book)
    requires Matching(start, taker, fills, b)
    ensures !Queued(b, taker.id) && AllLive(QueueOf(start, Opposite(taker.side)))
    ensures b.orders == AfterFills(start.orders, fills)[taker.id := taker.(remaining := b.orders[taker.id].remaining)]
    ensures b.resting == StillLive(start.resting, b.orders) && MakersOf(start, Opposite(taker.side), fills)
  {
  }
}
