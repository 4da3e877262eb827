/** Ride dispatch: who may be offered a trip, and what every command leaves true of leases,
    trips and the index of dispatchable drivers. */
module DispatchState {
  import opened StringOrder
  import opened Wrappers

  datatype Location = Location(lat: int, lon: int)

  datatype TripState = Requested | Offered | Assigned | InProgress | Completed | Cancelled | Unfulfilled

  datatype Offer = Offer(tripId: string, driverId: string, distance: nat, expiresAt: int)

  datatype Trip = Trip(riderId: string, pickup: Location, createdAt: int, state: TripState, driver: Option<string>,
                       offers: nat, matchedRadius: nat, declined: set<string>)

  type Drivers = map<string, Location>

  /** The dispatcher's tables. `index` is what the geo index stores, `indexed` the service's own
      record of who is in it. */
  datatype State = State(locations: Drivers, index: Drivers, indexed: set<string>, leases: map<string, Offer>,
                         onTrip: map<string, string>, trips: map<string, Trip>)

  datatype Config = Config(distance: (Location, Location) -> nat, onEarth: Location -> bool,
                           offerTimeout: int, initialRadius: nat, maxRadius: nat, candidates: nat)

  ghost predicate ConfigOk(w: Config) {
    0 < w.initialRadius <= w.maxRadius && w.offerTimeout > 0 && w.candidates > 0
  }

  /** The transition table. */
  predicate Legal(a: TripState, b: TripState) {
    match a
    case Requested => b in {Offered, Unfulfilled, Cancelled}
    case Offered => b in {Assigned, Requested, Cancelled}
    case Assigned => b in {InProgress, Cancelled}
    case InProgress => b == Completed
    case _ => false
  }

  // ---------------------------------------------------------------- nearest first

  /** Indexed, not excluded, and within the radius. */
  predicate Eligible(w: Config, index: Drivers, at: Location, avoid: set<string>, radius: nat, d: string) {
    d in index && d !in avoid && w.distance(at, index[d]) <= radius
  }

  /** The order of `(distance, id)`. */
  predicate Closer(w: Config, index: Drivers, at: Location, a: string, b: string)
    requires a in index && b in index
  {
    var x, y := w.distance(at, index[a]), w.distance(at, index[b]);
    x < y || (x == y && StrLess(a, b))
  }

  ghost predicate IsNearest(w: Config, index: Drivers, at: Location, avoid: set<string>, radius: nat, d: string) {
    && Eligible(w, index, at, avoid, radius, d)
    && forall e :: Eligible(w, index, at, avoid, radius, e) && e != d ==> Closer(w, index, at, d, e)
  }

  lemma CloserOrder(w: Config, index: Drivers, at: Location, a: string, b: string, c: string)
    requires a in index && b in index && c in index
    ensures !Closer(w, index, at, a, a)
    ensures Closer(w, index, at, a, b) && Closer(w, index, at, b, c) ==> Closer(w, index, at, a, c)
    ensures Closer(w, index, at, a, b) || a == b || Closer(w, index, at, b, a)
  {
    Irreflexive(a);
    Total(a, b);
    if StrLess(a, b) && StrLess(b, c) {
      Transitive(a, b, c);
    }
  }

  lemma NearestIsUnique(w: Config, index: Drivers, at: Location, avoid: set<string>, radius: nat, d: string, e: string)
    requires IsNearest(w, index, at, avoid, radius, d) && IsNearest(w, index, at, avoid, radius, e)
    ensures d == e
  {
    if d != e {
      CloserOrder(w, index, at, d, e, d);
    }
  }

  /** A wider circle that reaches beyond a non-empty one has the same nearest driver. */
  lemma NearestInside(w: Config, index: Drivers, at: Location, avoid: set<string>, inner: nat, outer: nat, d: string)
    requires inner <= outer && IsNearest(w, index, at, avoid, inner, d)
    ensures IsNearest(w, index, at, avoid, outer, d)
  {
    forall e | Eligible(w, index, at, avoid, outer, e) && e != d ensures Closer(w, index, at, d, e) {
      assert Eligible(w, index, at, avoid, inner, e) || w.distance(at, index[e]) > inner;
    }
  }

  /** The radius a search stops at: doubled from the initial one until somebody is eligible or
      the cap is reached. */
  ghost function StopRadius(w: Config, index: Drivers, at: Location, avoid: set<string>, radius: nat): (r: nat)
    requires 0 < radius <= w.maxRadius
    ensures radius <= r <= w.maxRadius
    ensures r == w.maxRadius || exists d :: Eligible(w, index, at, avoid, r, d)
    decreases w.maxRadius - radius
  {
    if radius >= w.maxRadius || exists d :: Eligible(w, index, at, avoid, radius, d) then radius
    else StopRadius(w, index, at, avoid, if radius * 2 <= w.maxRadius then radius * 2 else w.maxRadius)
  }

  ghost predicate InOrder(w: Config, index: Drivers, at: Location, hits: seq<string>) {
    && (forall i :: 0 <= i < |hits| ==> hits[i] in index)
    && (forall i, j :: 0 <= i < j < |hits| ==> Closer(w, index, at, hits[i], hits[j]))
  }

  /** `hits` is the nearest-first list of the `k` nearest eligible drivers, or of all of them. */
  ghost predicate IsTop(w: Config, index: Drivers, at: Location, avoid: set<string>, radius: nat, k: nat,
                        hits: seq<string>) {
    && InOrder(w, index, at, hits) && |hits| <= k
    && (forall i :: 0 <= i < |hits| ==> Eligible(w, index, at, avoid, radius, hits[i]))
    && (forall e :: Eligible(w, index, at, avoid, radius, e) && e !in hits ==>
          |hits| == k && forall i :: 0 <= i < |hits| ==> Closer(w, index, at, hits[i], e))
  }

  lemma TopIsNearest(w: Config, index: Drivers, at: Location, avoid: set<string>, radius: nat, k: nat,
                     hits: seq<string>)
    requires IsTop(w, index, at, avoid, radius, k, hits) && k > 0
    ensures hits != [] ==> IsNearest(w, index, at, avoid, radius, hits[0])
    ensures hits == [] ==> forall e :: !Eligible(w, index, at, avoid, radius, e)
  {
    if hits != [] {
      forall e | Eligible(w, index, at, avoid, radius, e) && e != hits[0] ensures Closer(w, index, at, hits[0], e) {
        if e in hits {
          var i :| 0 <= i < |hits| && hits[i] == e;
        }
      }
    }
  }

  function Keep(hits: seq<string>, avoid: set<string>): (kept: seq<string>) {
    if hits == [] then [] else
      Keep(hits[..|hits| - 1], avoid) + if hits[|hits| - 1] in avoid then [] else [hits[|hits| - 1]]
  }

  lemma {:induction false} KeepMembers(hits: seq<string>, avoid: set<string>)
    ensures forall d :: d in Keep(hits, avoid) <==> d in hits && d !in avoid
  {
    if hits != [] {
      KeepMembers(hits[..|hits| - 1], avoid);
      assert hits == hits[..|hits| - 1] + [hits[|hits| - 1]];
    }
  }

  lemma {:induction false} KeepOrder(w: Config, index: Drivers, at: Location, hits: seq<string>, avoid: set<string>)
    requires InOrder(w, index, at, hits)
    ensures InOrder(w, index, at, Keep(hits, avoid))
  {
    hide Closer;
    if hits != [] {
      var front, last := hits[..|hits| - 1], hits[|hits| - 1];
      KeepOrder(w, index, at, front, avoid);
      KeepMembers(front, avoid);
      forall i | 0 <= i < |Keep(front, avoid)| ensures Closer(w, index, at, Keep(front, avoid)[i], last) {
        var d := Keep(front, avoid)[i];
        assert d in Keep(front, avoid);
        var j :| 0 <= j < |front| && front[j] == d;
        assert hits[j] == d;
      }
    }
  }

  /** Of distinct names, at most `|avoid|` are dropped. */
  lemma {:induction false} KeepCount(hits: seq<string>, avoid: set<string>)
    requires forall i, j :: 0 <= i < j < |hits| ==> hits[i] != hits[j]
    ensures |Keep(hits, avoid)| + |avoid| >= |hits|
  {
    if hits != [] {
      var front, last := hits[..|hits| - 1], hits[|hits| - 1];
      if last in avoid {
        KeepCount(front, avoid - {last});
        KeepApart(front, avoid, last);
      } else {
        KeepCount(front, avoid);
      }
    }
  }

  lemma {:induction false} KeepApart(hits: seq<string>, avoid: set<string>, d: string)
    requires d !in hits
    ensures Keep(hits, avoid - {d}) == Keep(hits, avoid)
  {
    if hits != [] {
      KeepApart(hits[..|hits| - 1], avoid, d);
      assert hits[|hits| - 1] in hits;
    }
  }

  /** Asking the index for `k` more than are excluded leaves the `k` nearest eligible drivers. */
  lemma ExcludedCannotCrowdOut(w: Config, index: Drivers, at: Location, avoid: set<string>, radius: nat, k: nat,
                               found: seq<string>)
    requires IsTop(w, index, at, {}, radius, k + |avoid|, found)
    ensures var hits := Keep(found, avoid);
            IsTop(w, index, at, avoid, radius, k, if |hits| <= k then hits else hits[..k])
  {
    var hits := Keep(found, avoid);
    KeepMembers(found, avoid);
    KeepOrder(w, index, at, found, avoid);
    DistinctInOrder(w, index, at, found);
    KeepCount(found, avoid);
    hide Closer, Eligible, Keep, IsTop;
    var top := if |hits| <= k then hits else hits[..k];
    forall i | 0 <= i < |top| ensures Eligible(w, index, at, avoid, radius, top[i]) {
      assert top[i] == hits[i] && hits[i] in hits;
      KeptEligible(w, index, at, avoid, radius, k + |avoid|, found, hits[i]);
    }
    forall e | Eligible(w, index, at, avoid, radius, e) && e !in top ensures AllCloser(w, index, at, top, k, e) {
      NoneCloser(w, index, at, avoid, radius, k, found, hits, top, e);
    }
    TopAgain(w, index, at, avoid, radius, k, hits, top);
  }

  ghost predicate AllCloser(w: Config, index: Drivers, at: Location, top: seq<string>, k: nat, e: string) {
    |top| == k && e in index && forall i :: 0 <= i < |top| ==> top[i] in index && Closer(w, index, at, top[i], e)
  }

  /** Whoever is left out of the first `k` kept hits is farther away than all of them. */
  lemma NoneCloser(w: Config, index: Drivers, at: Location, avoid: set<string>, radius: nat, k: nat,
                   found: seq<string>, hits: seq<string>, top: seq<string>, e: string)
    requires IsTop(w, index, at, {}, radius, k + |avoid|, found) && InOrder(w, index, at, hits)
    requires forall d :: d in hits <==> d in found && d !in avoid
    requires |hits| + |avoid| >= |found| && top == (if |hits| <= k then hits else hits[..k])
    requires Eligible(w, index, at, avoid, radius, e) && e !in top
    ensures AllCloser(w, index, at, top, k, e)
  {
    hide Closer, Eligible, IsTop;
    if e in hits {
      LeftOut(w, index, at, hits, k, e);
    } else {
      NotKept(w, index, at, avoid, radius, found, hits, e);
      NotFound(w, index, at, avoid, radius, k, found, e);
      forall i | 0 <= i < |top| ensures top[i] in index && Closer(w, index, at, top[i], e) {
        assert top[i] == hits[i] && hits[i] in hits;
      }
    }
  }

  lemma TopAgain(w: Config, index: Drivers, at: Location, avoid: set<string>, radius: nat, k: nat,
                 hits: seq<string>, top: seq<string>)
    requires InOrder(w, index, at, hits) && top == (if |hits| <= k then hits else hits[..k])
    requires forall i :: 0 <= i < |top| ==> Eligible(w, index, at, avoid, radius, top[i])
    requires forall e :: Eligible(w, index, at, avoid, radius, e) && e !in top ==> AllCloser(w, index, at, top, k, e)
    ensures IsTop(w, index, at, avoid, radius, k, top)
  {
    hide Closer;
  }

  lemma NotKept(w: Config, index: Drivers, at: Location, avoid: set<string>, radius: nat, found: seq<string>,
                hits: seq<string>, e: string)
    requires Eligible(w, index, at, avoid, radius, e) && e !in hits
    requires forall d :: d in hits <==> d in found && d !in avoid
    ensures e !in found && e in index
  {
  }

  /** An eligible driver the index did not return is farther than everyone it did return. */
  lemma NotFound(w: Config, index: Drivers, at: Location, avoid: set<string>, radius: nat, k: nat, found: seq<string>,
                 e: string)
    requires IsTop(w, index, at, {}, radius, k + |avoid|, found) && Eligible(w, index, at, avoid, radius, e) &&
             e !in found
    ensures |found| == k + |avoid|
    ensures forall d :: d in found ==> d in index && Closer(w, index, at, d, e)
  {
    hide Closer;
    assert Eligible(w, index, at, {}, radius, e);
    forall d | d in found ensures d in index && Closer(w, index, at, d, e) {
      var j :| 0 <= j < |found| && found[j] == d;
    }
  }

  lemma KeptEligible(w: Config, index: Drivers, at: Location, avoid: set<string>, radius: nat, k: nat,
                     found: seq<string>, d: string)
    requires IsTop(w, index, at, {}, radius, k, found) && d in found && d !in avoid
    ensures Eligible(w, index, at, avoid, radius, d)
  {
    var i :| 0 <= i < |found| && found[i] == d;
    assert Eligible(w, index, at, {}, radius, found[i]);
  }

  lemma LeftOut(w: Config, index: Drivers, at: Location, hits: seq<string>, k: nat, e: string)
    requires InOrder(w, index, at, hits) && e in hits && k < |hits| && e !in hits[..k]
    ensures e in index && forall i :: 0 <= i < k ==> Closer(w, index, at, hits[i], e)
  {
    hide Closer;
    assert hits == hits[..k] + hits[k..];
    var j :| 0 <= j < |hits[k..]| && hits[k..][j] == e;
  }

  lemma DistinctInOrder(w: Config, index: Drivers, at: Location, hits: seq<string>)
    requires InOrder(w, index, at, hits)
    ensures forall i, j :: 0 <= i < j < |hits| ==> hits[i] != hits[j]
  {
    hide Closer;
    forall i, j | 0 <= i < j < |hits| ensures hits[i] != hits[j] {
      CloserOrder(w, index, at, hits[i], hits[j], hits[i]);
    }
  }

  // ---------------------------------------------------------------- what the tables must agree on

  /** Online, holding no offer, driving nobody. */
  predicate Free(s: State, d: string) {
    d in s.locations && d !in s.leases && d !in s.onTrip
  }

  /** The index holds exactly the free drivers, each where it last reported from. */
  ghost predicate IndexOk(s: State) {
    && s.indexed == s.index.Keys
    && forall d :: IndexedRight(s, d)
  }

  ghost predicate IndexedRight(s: State, d: string) {
    && (d in s.index <==> Free(s, d) && d != "")
    && (d in s.index ==> s.index[d] == s.locations[d])
  }

  ghost predicate Holds(s: State, d: string, t: string) {
    d in s.leases && s.leases[d].tripId == t
  }

  ghost predicate LeaseOk(s: State, d: string)
    requires d in s.leases
  {
    var o := s.leases[d];
    && o.driverId == d && d in s.locations && d !in s.onTrip && d != ""
    && o.tripId in s.trips && s.trips[o.tripId].state == Offered && d !in s.trips[o.tripId].declined
  }

  ghost predicate LeasesOk(s: State) {
    && (forall d :: d in s.leases ==> LeaseOk(s, d))
    && (forall d, e, t :: Holds(s, d, t) && Holds(s, e, t) ==> d == e)
  }

  ghost predicate Drives(s: State, d: string, t: string) {
    d in s.onTrip && s.onTrip[d] == t
  }

  ghost predicate DrivesOk(s: State) {
    forall d :: d in s.onTrip ==>
      d != "" && s.onTrip[d] in s.trips && s.trips[s.onTrip[d]].driver == Some(d) && Riding(s.trips[s.onTrip[d]])
  }

  predicate Riding(trip: Trip) {
    trip.state == Assigned || trip.state == InProgress
  }

  /** One trip against the tables; `open` says that the dispatcher is looking for a driver for it. */
  ghost predicate TripOk(w: Config, s: State, t: string, open: bool)
    requires t in s.trips
  {
    var trip := s.trips[t];
    && (trip.state == Offered ==> exists d :: Holds(s, d, t))
    && (Riding(trip) ==> trip.driver.Some? && Drives(s, trip.driver.value, t))
    && (trip.state in {Requested, Offered, Unfulfilled} ==> trip.driver.None?)
    && (trip.state == Requested ==> open || !w.onEarth(trip.pickup))
    && (open ==> trip.state == Requested && w.onEarth(trip.pickup))
    && (!w.onEarth(trip.pickup) ==> trip.state in {Requested, Cancelled} && trip.driver.None?)
    && trip.offers == |trip.declined| + if EndedByDriver(w, trip) then 1 else 0
  }

  /** The trip's last offer was not refused: it stands, was accepted, or was withdrawn. */
  predicate EndedByDriver(w: Config, trip: Trip) {
    Riding(trip) || trip.state == Offered || trip.state == Completed ||
        (trip.state == Cancelled && w.onEarth(trip.pickup))
  }

  /** What holds between commands (`open` empty), and while the trips of `open` are being dispatched. */
  ghost predicate Consistent(w: Config, s: State, open: set<string>) {
    && IndexOk(s) && LeasesOk(s) && DrivesOk(s)
    && (forall t :: t in s.trips ==> TripOk(w, s, t, t in open))
    && open <= s.trips.Keys
  }

  // ---------------------------------------------------------------- the steps

  /** `_sync_index` for one driver. */
  function Synced(s: State, d: string): State {
    if Free(s, d) then s.(index := s.index[d := s.locations[d]], indexed := s.indexed + {d})
    else s.(index := s.index - {d}, indexed := s.indexed - {d})
  }

  /** A lease for driver `d` on trip `t`. */
  function Leased(s: State, t: string, d: string, distance: nat, expiresAt: int, radius: nat): State
    requires t in s.trips
  {
    var trip := s.trips[t];
    Synced(s.(leases := s.leases[d := Offer(t, d, distance, expiresAt)]), d)
      .(trips := s.trips[t := trip.(offers := trip.offers + 1, matchedRadius := radius, state := Offered)])
  }

  /** The driver a trip is offered to: the nearest within the cap who has not refused it. */
  ghost predicate Next(w: Config, s: State, t: string, d: string)
    requires t in s.trips
  {
    IsNearest(w, s.index, s.trips[t].pickup, s.trips[t].declined, w.maxRadius, d)
  }

  ghost function OfferedTo(w: Config, s: State, t: string, d: string, now: int): State
    requires ConfigOk(w) && t in s.trips && d in s.index
  {
    var trip := s.trips[t];
    Leased(s, t, d, w.distance(trip.pickup, s.index[d]), now + w.offerTimeout,
           StopRadius(w, s.index, trip.pickup, trip.declined, w.initialRadius))
  }

  /** One attempt to place a trip: an offer to the next driver, or the end of the search. */
  ghost function Placed(w: Config, s: State, t: string, now: int): State
    requires ConfigOk(w) && t in s.trips
  {
    if exists d :: Next(w, s, t, d) then
      var d :| Next(w, s, t, d);
      OfferedTo(w, s, t, d, now)
    else WithState(s, t, Unfulfilled)
  }

  /** A driver's lease ends without a ride; the trip is looking for a driver again. */
  function Refused(s: State, d: string): State
    requires d in s.leases && s.leases[d].tripId in s.trips
  {
    var t := s.leases[d].tripId;
    var trip := s.trips[t];
    Synced(s.(leases := s.leases - {d}), d).(trips :=
                                             s.trips[t := trip.(declined := trip.declined + {d}, state := Requested)])
  }

  /** `decline_offer` and one round of the reaper. */
  ghost function Redispatched(w: Config, s: State, d: string, now: int): State
    requires ConfigOk(w) && d in s.leases && s.leases[d].tripId in s.trips
  {
    Placed(w, Refused(s, d), s.leases[d].tripId, now)
  }

  function Accepted(s: State, d: string): State
    requires d in s.leases && s.leases[d].tripId in s.trips
  {
    var t := s.leases[d].tripId;
    Synced(s.(leases := s.leases - {d}, onTrip := s.onTrip[d := t],
              trips := s.trips[t := s.trips[t].(state := Assigned, driver := Some(d))]), d)
  }

  function WithState(s: State, t: string, state: TripState): State
    requires t in s.trips
  {
    s.(trips := s.trips[t := s.trips[t].(state := state)])
  }

  /** A trip under way ends and its driver is let go. */
  function Finished(s: State, t: string, d: string, state: TripState): State
    requires t in s.trips
  {
    Synced(WithState(s, t, state).(onTrip := s.onTrip - {d}), d)
  }

  /** The offer on a trip is taken back and the trip cancelled. */
  function Revoked(s: State, t: string, d: string): State
    requires t in s.trips
  {
    Synced(WithState(s, t, Cancelled).(leases := s.leases - {d}), d)
  }

  function At(s: State, d: string, at: Location): State {
    Synced(s.(locations := s.locations[d := at]), d)
  }

  function Gone(s: State, d: string): State {
    Synced(s.(locations := s.locations - {d}), d)
  }

  // ---------------------------------------------------------------- every step keeps the tables consistent

  ghost predicate IndexOkBut(s: State, d: string) {
    s.indexed == s.index.Keys && forall e :: e != d ==> IndexedRight(s, e)
  }

  lemma SyncRestores(s: State, d: string)
    requires IndexOkBut(s, d) && d != ""
    ensures IndexOk(Synced(s, d))
  {
    forall e ensures IndexedRight(Synced(s, d), e) {
      assert e != d ==> IndexedRight(s, e);
    }
  }

  /** Changing one driver's entries leaves every other driver's index entry right. */
  lemma OthersIndexed(s: State, s': State, d: string)
    requires IndexOk(s) && s'.index == s.index && s'.indexed == s.indexed
    requires forall e :: e != d ==> (Free(s', e) <==> Free(s, e)) && (Free(s, e) ==> s'.locations[e] == s.locations[e])
    ensures IndexOkBut(s', d)
  {
    forall e | e != d ensures IndexedRight(s', e) {
      assert IndexedRight(s, e);
    }
  }

  lemma TripFacts(w: Config, s: State, open: set<string>, t: string)
    requires Consistent(w, s, open) && t in s.trips
    ensures TripOk(w, s, t, t in open)
  {
  }

  lemma LeaseFacts(w: Config, s: State, open: set<string>, d: string)
    requires Consistent(w, s, open) && d in s.leases
    ensures LeaseOk(s, d) && IndexedRight(s, d)
    ensures forall e :: Holds(s, e, s.leases[d].tripId) ==> e == d
    ensures s.leases[d].tripId !in open
  {
    assert Holds(s, d, s.leases[d].tripId);
  }

  /** A step that touches trip `t` alone: what is left to check is `t` and the index. */
  ghost predicate Elsewhere(s: State, r: State, t: string) {
    && (forall u :: u != t ==> (u in r.trips <==> u in s.trips))
    && (forall u :: u != t && u in s.trips ==> r.trips[u] == s.trips[u])
    && (forall e, u :: u != t ==> (Holds(r, e, u) <==> Holds(s, e, u)))
    && (forall e, u :: u != t ==> (Drives(r, e, u) <==> Drives(s, e, u)))
    && (forall e :: e in r.leases && r.leases[e].tripId != t ==> e in s.leases && r.leases[e] == s.leases[e])
    && (forall e :: e in r.leases ==> e in r.locations && e !in r.onTrip && e != "")
  }

  /** The trip and whoever the tables tie to it. */
  ghost predicate Here(w: Config, r: State, t: string, open: bool) {
    && t in r.trips && TripOk(w, r, t, open)
    && (forall e :: Holds(r, e, t) ==> LeaseOk(r, e))
    && (forall d, e :: Holds(r, d, t) && Holds(r, e, t) ==> d == e)
    && (forall e :: Drives(r, e, t) ==> e != "" && r.trips[t].driver == Some(e) && Riding(r.trips[t]))
  }

  lemma StepKeeps(w: Config, s: State, open: set<string>, r: State, open': set<string>, t: string)
    requires Consistent(w, s, open) && IndexOk(r) && Elsewhere(s, r, t) && Here(w, r, t, t in open')
    requires open' - {t} == open - {t}
    ensures Consistent(w, r, open')
  {
    hide IndexOk, Riding, EndedByDriver;
    LeasesKept(s, r, t);
    DrivesKept(s, r, t);
    forall u | u in r.trips ensures TripOk(w, r, u, u in open') {
      if u != t {
        assert u in open' <==> u in open by {
          assert u in open' - {t} <==> u in open - {t};
        }
        TripKept(w, s, r, t, u, u in open);
      }
    }
    assert open' <= r.trips.Keys by {
      forall u | u in open' ensures u in r.trips {
        assert u != t ==> u in open' - {t} && u in open - {t};
      }
    }
  }

  lemma TripKept(w: Config, s: State, r: State, t: string, u: string, open: bool)
    requires Elsewhere(s, r, t) && u != t && u in s.trips && TripOk(w, s, u, open)
    ensures u in r.trips && TripOk(w, r, u, open)
  {
    hide Riding, EndedByDriver, Holds, Drives;
    if s.trips[u].state == Offered {
      var e :| Holds(s, e, u);
      assert Holds(r, e, u);
    }
  }

  lemma LeasesKept(s: State, r: State, t: string)
    requires LeasesOk(s) && Elsewhere(s, r, t)
    requires forall e :: Holds(r, e, t) ==> LeaseOk(r, e)
    requires forall d, e :: Holds(r, d, t) && Holds(r, e, t) ==> d == e
    ensures LeasesOk(r)
  {
    forall e | e in r.leases ensures LeaseOk(r, e) {
      var u := r.leases[e].tripId;
      assert Holds(r, e, u);
      if u != t {
        assert Holds(s, e, u) && LeaseOk(s, e);
      }
    }
    forall d, e, u | Holds(r, d, u) && Holds(r, e, u) ensures d == e {
      if u != t {
        assert Holds(s, d, u) && Holds(s, e, u);
      }
    }
  }

  lemma DrivesKept(s: State, r: State, t: string)
    requires DrivesOk(s) && Elsewhere(s, r, t) && t in r.trips
    requires forall e :: Drives(r, e, t) ==> e != "" && r.trips[t].driver == Some(e) && Riding(r.trips[t])
    ensures DrivesOk(r)
  {
    hide Riding, Holds;
    forall d | d in r.onTrip ensures d != "" && r.onTrip[d] in r.trips && r.trips[r.onTrip[d]].driver == Some(d) &&
           Riding(r.trips[r.onTrip[d]]) {
      assert Drives(r, d, r.onTrip[d]);
      assert r.onTrip[d] != t ==> Drives(s, d, r.onTrip[d]);
    }
  }

  lemma SyncedAlone(s: State, s1: State, d: string)
    requires IndexOk(s) && s1.index == s.index && s1.indexed == s.indexed && d != ""
    requires forall e :: e != d ==> (Free(s1, e) <==> Free(s, e)) && (Free(s, e) ==> s1.locations[e] == s.locations[e])
    ensures IndexOk(Synced(s1, d))
  {
    OthersIndexed(s, s1, d);
    SyncRestores(s1, d);
  }

  lemma SameIndex(s: State, r: State)
    requires IndexOk(s) && r.index == s.index && r.indexed == s.indexed
    requires r.locations == s.locations && r.leases.Keys == s.leases.Keys && r.onTrip.Keys == s.onTrip.Keys
    ensures IndexOk(r)
  {
    forall d ensures IndexedRight(r, d) {
      assert IndexedRight(s, d);
      assert d in r.leases.Keys <==> d in s.leases.Keys;
      assert d in r.onTrip.Keys <==> d in s.onTrip.Keys;
    }
  }

  /** Nobody drives a trip that is not under way. */
  lemma NobodyDrives(w: Config, s: State, open: set<string>, t: string)
    requires Consistent(w, s, open) && t in s.trips && !Riding(s.trips[t])
    ensures forall e :: !Drives(s, e, t)
  {
  }

  /** Nobody holds an offer on a trip that is not offered. */
  lemma NobodyHolds(w: Config, s: State, open: set<string>, t: string)
    requires Consistent(w, s, open) && t in s.trips && s.trips[t].state != Offered
    ensures forall e :: !Holds(s, e, t)
  {
  }

  /** What `Consistent` says of one lease and of its trip. */
  lemma LeaseAndTrip(w: Config, s: State, d: string)
    requires Consistent(w, s, {}) && d in s.leases
    ensures IndexOk(s) && LeasesOk(s) && LeaseOk(s, d) && s.leases[d].tripId in s.trips
    ensures forall e :: Holds(s, e, s.leases[d].tripId) ==> e == d
    ensures forall e :: !Drives(s, e, s.leases[d].tripId)
    ensures var trip := s.trips[s.leases[d].tripId];
            trip.driver.None? && trip.offers == |trip.declined| + 1 && w.onEarth(trip.pickup)
  {
    LeaseFacts(w, s, {}, d);
    TripFacts(w, s, {}, s.leases[d].tripId);
    NobodyDrives(w, s, {}, s.leases[d].tripId);
  }

  /** A refusal frees the driver and opens the trip. */
  lemma RefusedOpens(w: Config, s: State, d: string)
    requires Consistent(w, s, {}) && d in s.leases
    ensures s.leases[d].tripId in s.trips && Consistent(w, Refused(s, d), {s.leases[d].tripId})
  {
    hide *;
    LeaseAndTrip(w, s, d);
    RefusedIndex(s, d);
    RefusedElsewhere(s, d);
    RefusedHere(w, s, d);
    StepKeeps(w, s, {}, Refused(s, d), {s.leases[d].tripId}, s.leases[d].tripId);
  }

  lemma RefusedIndex(s: State, d: string)
    requires IndexOk(s) && d in s.leases && s.leases[d].tripId in s.trips && d != ""
    ensures IndexOk(Refused(s, d))
  {
    var s1 := s.(leases := s.leases - {d});
    SyncedAlone(s, s1, d);
    SameIndex(Synced(s1, d), Refused(s, d));
  }

  lemma RefusedElsewhere(s: State, d: string)
    requires LeasesOk(s) && d in s.leases
    ensures Elsewhere(s, Refused(s, d), s.leases[d].tripId)
  {
    var r, t := Refused(s, d), s.leases[d].tripId;
    forall e | e in r.leases ensures e in r.locations && e !in r.onTrip && e != "" {
      assert LeaseOk(s, e);
    }
  }

  lemma RefusedHere(w: Config, s: State, d: string)
    requires d in s.leases && LeaseOk(s, d)
    requires forall e :: Holds(s, e, s.leases[d].tripId) ==> e == d
    requires forall e :: !Drives(s, e, s.leases[d].tripId)
    requires var trip := s.trips[s.leases[d].tripId];
             trip.driver.None? && trip.offers == |trip.declined| + 1 && w.onEarth(trip.pickup)
    ensures Here(w, Refused(s, d), s.leases[d].tripId, true)
  {
    var r, t := Refused(s, d), s.leases[d].tripId;
    forall e ensures !Holds(r, e, t) && !Drives(r, e, t) {
      assert Holds(r, e, t) ==> Holds(s, e, t);
      assert !Drives(s, e, t);
    }
  }

  /** A lease on an indexed driver closes the search. */
  lemma LeasedCloses(w: Config, s: State, t: string, d: string, distance: nat, expiresAt: int, radius: nat)
    requires Consistent(w, s, {t}) && t in s.trips && d in s.index && d !in s.trips[t].declined
    ensures Consistent(w, Leased(s, t, d, distance, expiresAt, radius), {})
  {
    hide *;
    OpenTrip(w, s, t);
    IndexedIsFree(w, s, {t}, d);
    var r := Leased(s, t, d, distance, expiresAt, radius);
    LeasedIndex(s, t, d, distance, expiresAt, radius);
    LeasedElsewhere(s, t, d, distance, expiresAt, radius);
    LeasedHere(w, s, t, d, distance, expiresAt, radius);
    StepKeeps(w, s, {t}, r, {}, t);
  }

  lemma OpenTrip(w: Config, s: State, t: string)
    requires Consistent(w, s, {t}) && t in s.trips
    ensures IndexOk(s) && LeasesOk(s) && s.trips[t].state == Requested && s.trips[t].driver.None?
    ensures s.trips[t].offers == |s.trips[t].declined| && w.onEarth(s.trips[t].pickup)
    ensures forall e :: !Holds(s, e, t) && !Drives(s, e, t)
  {
    TripFacts(w, s, {t}, t);
    NobodyDrives(w, s, {t}, t);
    NobodyHolds(w, s, {t}, t);
  }

  lemma IndexedIsFree(w: Config, s: State, open: set<string>, d: string)
    requires Consistent(w, s, open) && d in s.index
    ensures Free(s, d) && d != "" && s.index[d] == s.locations[d]
  {
    assert IndexedRight(s, d);
  }

  lemma LeasedIndex(s: State, t: string, d: string, distance: nat, expiresAt: int, radius: nat)
    requires IndexOk(s) && t in s.trips && Free(s, d) && d != ""
    ensures IndexOk(Leased(s, t, d, distance, expiresAt, radius))
  {
    var s1 := s.(leases := s.leases[d := Offer(t, d, distance, expiresAt)]);
    SyncedAlone(s, s1, d);
    SameIndex(Synced(s1, d), Leased(s, t, d, distance, expiresAt, radius));
  }

  lemma LeasedElsewhere(s: State, t: string, d: string, distance: nat, expiresAt: int, radius: nat)
    requires LeasesOk(s) && t in s.trips && Free(s, d) && d != ""
    ensures Elsewhere(s, Leased(s, t, d, distance, expiresAt, radius), t)
  {
    var r := Leased(s, t, d, distance, expiresAt, radius);
    forall e | e in r.leases ensures e in r.locations && e !in r.onTrip && e != "" {
      assert e != d ==> LeaseOk(s, e);
    }
  }

  lemma LeasedHere(w: Config, s: State, t: string, d: string, distance: nat, expiresAt: int, radius: nat)
    requires t in s.trips && Free(s, d) && d != "" && d !in s.trips[t].declined
    requires s.trips[t].driver.None? && s.trips[t].offers == |s.trips[t].declined| && w.onEarth(s.trips[t].pickup)
    requires forall e :: !Holds(s, e, t) && !Drives(s, e, t)
    ensures Here(w, Leased(s, t, d, distance, expiresAt, radius), t, false)
  {
    var r := Leased(s, t, d, distance, expiresAt, radius);
    forall e ensures !Drives(r, e, t) && (Holds(r, e, t) ==> e == d) {
      assert !Holds(s, e, t) && !Drives(s, e, t);
    }
    assert Holds(r, d, t);
  }

  /** Moving a trip to a state in which nobody holds or drives it. */
  lemma LetGo(w: Config, s: State, open: set<string>, t: string, state: TripState, open': set<string>)
    requires Consistent(w, s, open) && t in s.trips && state in {Cancelled, Unfulfilled}
    requires open' == open - {t}
    requires s.trips[t].state == Requested && (state == Unfulfilled <==> t in open)
    ensures Consistent(w, WithState(s, t, state), open')
  {
    TripFacts(w, s, open, t);
    NobodyDrives(w, s, open, t);
    NobodyHolds(w, s, open, t);
    var r := WithState(s, t, state);
    SameIndex(s, r);
    SameTables(s, r, t);
    assert Here(w, r, t, t in open') by {
      hide IndexOk, LeasesOk, DrivesOk, Consistent;
      forall e ensures !Holds(r, e, t) && !Drives(r, e, t) {
        assert !Holds(s, e, t) && !Drives(s, e, t);
      }
    }
    hide *;
    StepKeeps(w, s, open, r, open', t);
  }

  lemma SameTables(s: State, r: State, t: string)
    requires LeasesOk(s) && t in s.trips && t in r.trips && r == s.(trips := s.trips[t := r.trips[t]])
    ensures Elsewhere(s, r, t)
  {
    forall e | e in r.leases ensures e in r.locations && e !in r.onTrip && e != "" {
      assert LeaseOk(s, e);
    }
  }

  lemma AcceptedKeeps(w: Config, s: State, d: string)
    requires Consistent(w, s, {}) && d in s.leases
    ensures s.leases[d].tripId in s.trips && Consistent(w, Accepted(s, d), {})
  {
    hide *;
    LeaseAndTrip(w, s, d);
    AcceptedIndex(s, d);
    AcceptedElsewhere(s, d);
    AcceptedHere(w, s, d);
    StepKeeps(w, s, {}, Accepted(s, d), {}, s.leases[d].tripId);
  }

  lemma AcceptedIndex(s: State, d: string)
    requires IndexOk(s) && d in s.leases && s.leases[d].tripId in s.trips && d != ""
    ensures IndexOk(Accepted(s, d))
  {
    var t := s.leases[d].tripId;
    SyncedAlone(s, s.(leases := s.leases - {d}, onTrip := s.onTrip[d := t],
                      trips := s.trips[t := s.trips[t].(state := Assigned, driver := Some(d))]), d);
  }

  lemma AcceptedElsewhere(s: State, d: string)
    requires LeasesOk(s) && d in s.leases && s.leases[d].tripId in s.trips
    ensures Elsewhere(s, Accepted(s, d), s.leases[d].tripId)
  {
    var r, t := Accepted(s, d), s.leases[d].tripId;
    assert LeaseOk(s, d);
    forall e | e in r.leases ensures e in r.locations && e !in r.onTrip && e != "" {
      assert LeaseOk(s, e);
    }
  }

  lemma AcceptedHere(w: Config, s: State, d: string)
    requires d in s.leases && LeaseOk(s, d)
    requires forall e :: Holds(s, e, s.leases[d].tripId) ==> e == d
    requires forall e :: !Drives(s, e, s.leases[d].tripId)
    requires var trip := s.trips[s.leases[d].tripId];
             trip.driver.None? && trip.offers == |trip.declined| + 1 && w.onEarth(trip.pickup)
    ensures Here(w, Accepted(s, d), s.leases[d].tripId, false)
  {
    var r, t := Accepted(s, d), s.leases[d].tripId;
    forall e ensures !Holds(r, e, t) && (Drives(r, e, t) ==> e == d) {
      assert Holds(r, e, t) ==> Holds(s, e, t);
      assert !Drives(s, e, t);
    }
    assert Drives(r, d, t);
  }

  /** What `Consistent` says of a trip under way. */
  lemma RideFacts(w: Config, s: State, t: string)
    requires Consistent(w, s, {}) && t in s.trips && Riding(s.trips[t])
    ensures IndexOk(s) && LeasesOk(s)
    ensures s.trips[t].driver.Some? && s.trips[t].driver.value != "" && Drives(s, s.trips[t].driver.value, t)
    ensures s.trips[t].offers == |s.trips[t].declined| + 1 && w.onEarth(s.trips[t].pickup)
    ensures forall e :: !Holds(s, e, t) && (Drives(s, e, t) ==> e == s.trips[t].driver.value)
  {
    TripFacts(w, s, {}, t);
    NobodyHolds(w, s, {}, t);
  }

  lemma StartedKeeps(w: Config, s: State, t: string)
    requires Consistent(w, s, {}) && t in s.trips && s.trips[t].state == Assigned
    ensures Consistent(w, WithState(s, t, InProgress), {})
  {
    RideFacts(w, s, t);
    var r := WithState(s, t, InProgress);
    SameIndex(s, r);
    SameTables(s, r, t);
    assert Here(w, r, t, false) by {
      hide IndexOk, LeasesOk, DrivesOk, Consistent;
      forall e ensures !Holds(r, e, t) && (Drives(r, e, t) ==> Drives(s, e, t)) {
        assert !Holds(s, e, t);
      }
      assert Drives(r, s.trips[t].driver.value, t);
    }
    hide *;
    StepKeeps(w, s, {}, r, {}, t);
  }

  lemma FinishedKeeps(w: Config, s: State, t: string, state: TripState)
    requires Consistent(w, s, {}) && t in s.trips && Riding(s.trips[t]) && state in {Completed, Cancelled}
    ensures s.trips[t].driver.Some? && Consistent(w, Finished(s, t, s.trips[t].driver.value, state), {})
  {
    hide *;
    RideFacts(w, s, t);
    var d := s.trips[t].driver.value;
    FinishedIndex(s, t, d, state);
    FinishedElsewhere(s, t, d, state);
    FinishedHere(w, s, t, d, state);
    StepKeeps(w, s, {}, Finished(s, t, d, state), {}, t);
  }

  lemma FinishedIndex(s: State, t: string, d: string, state: TripState)
    requires IndexOk(s) && t in s.trips && Drives(s, d, t) && d != ""
    ensures IndexOk(Finished(s, t, d, state))
  {
    var s1 := WithState(s, t, state).(onTrip := s.onTrip - {d});
    SyncedAlone(s, s1, d);
  }

  lemma FinishedElsewhere(s: State, t: string, d: string, state: TripState)
    requires LeasesOk(s) && t in s.trips && Drives(s, d, t)
    ensures Elsewhere(s, Finished(s, t, d, state), t)
  {
    var r := Finished(s, t, d, state);
    forall e | e in r.leases ensures e in r.locations && e !in r.onTrip && e != "" {
      assert LeaseOk(s, e);
    }
  }

  lemma FinishedHere(w: Config, s: State, t: string, d: string, state: TripState)
    requires t in s.trips && state in {Completed, Cancelled}
    requires s.trips[t].offers == |s.trips[t].declined| + 1 && w.onEarth(s.trips[t].pickup)
    requires forall e :: !Holds(s, e, t) && (Drives(s, e, t) ==> e == d)
    ensures Here(w, Finished(s, t, d, state), t, false)
  {
    var r := Finished(s, t, d, state);
    forall e ensures !Holds(r, e, t) && !Drives(r, e, t) {
      assert !Holds(s, e, t) && (Drives(s, e, t) ==> e == d);
    }
  }

  lemma RevokedKeeps(w: Config, s: State, t: string, d: string)
    requires Consistent(w, s, {}) && Holds(s, d, t)
    ensures t in s.trips && Consistent(w, Revoked(s, t, d), {})
  {
    hide IndexOk, Consistent, LeasesOk, DrivesOk, TripOk, LeaseOk, Synced, WithState, Elsewhere, Here, IndexedRight,
        Drives, Free;
    LeaseAndTrip(w, s, d);
    RevokedIndex(s, d);
    RevokedElsewhere(s, d);
    RevokedHere(w, s, d);
    StepKeeps(w, s, {}, Revoked(s, t, d), {}, t);
  }

  lemma RevokedIndex(s: State, d: string)
    requires IndexOk(s) && d in s.leases && LeaseOk(s, d)
    ensures IndexOk(Revoked(s, s.leases[d].tripId, d))
  {
    SyncedAlone(s, WithState(s, s.leases[d].tripId, Cancelled).(leases := s.leases - {d}), d);
  }

  lemma RevokedElsewhere(s: State, d: string)
    requires LeasesOk(s) && d in s.leases && LeaseOk(s, d)
    ensures Elsewhere(s, Revoked(s, s.leases[d].tripId, d), s.leases[d].tripId)
  {
    var r, t := Revoked(s, s.leases[d].tripId, d), s.leases[d].tripId;
    forall e | e in r.leases ensures e in r.locations && e !in r.onTrip && e != "" {
      assert LeaseOk(s, e);
    }
  }

  lemma RevokedHere(w: Config, s: State, d: string)
    requires d in s.leases && LeaseOk(s, d)
    requires forall e :: Holds(s, e, s.leases[d].tripId) ==> e == d
    requires forall e :: !Drives(s, e, s.leases[d].tripId)
    requires var trip := s.trips[s.leases[d].tripId];
             trip.driver.None? && trip.offers == |trip.declined| + 1 && w.onEarth(trip.pickup)
    ensures Here(w, Revoked(s, s.leases[d].tripId, d), s.leases[d].tripId, false)
  {
    var r, t := Revoked(s, s.leases[d].tripId, d), s.leases[d].tripId;
    forall e ensures !Holds(r, e, t) && !Drives(r, e, t) {
      assert Holds(r, e, t) ==> Holds(s, e, t);
      assert !Drives(s, e, t);
    }
  }

  /** A new trip on the map is looking for a driver; one off the map waits for good. */
  lemma NewTripKeeps(w: Config, s: State, t: string, trip: Trip)
    requires Consistent(w, s, {}) && t !in s.trips
    requires trip.state == Requested && trip.driver.None? && trip.offers == 0 && trip.declined == {}
    ensures Consistent(w, s.(trips := s.trips[t := trip]), if w.onEarth(trip.pickup) then {t} else {})
  {
    var r := s.(trips := s.trips[t := trip]);
    SameIndex(s, r);
    assert Elsewhere(s, r, t) by {
      forall e | e in r.leases ensures e in r.locations && e !in r.onTrip && e != "" {
        assert LeaseOk(s, e);
      }
    }
    forall e ensures !Holds(r, e, t) && !Drives(r, e, t) {
      assert e in s.leases ==> LeaseOk(s, e);
    }
    hide IndexOk, Consistent, LeasesOk, DrivesOk, Elsewhere, Holds, Drives;
    StepKeeps(w, s, {}, r, if w.onEarth(trip.pickup) then {t} else {}, t);
  }

  /** Moving a driver, or taking one without a lease offline. */
  lemma LocationsKeep(w: Config, s: State, r: State)
    requires Consistent(w, s, {}) && r == s.(locations := r.locations, index := r.index, indexed := r.indexed)
    requires IndexOk(r) && forall d :: d in s.leases ==> d in r.locations
    ensures Consistent(w, r, {})
  {
    hide IndexOk;
    forall d | d in r.leases ensures LeaseOk(r, d) {
      assert LeaseOk(s, d);
    }
    forall d, e, t | Holds(r, d, t) && Holds(r, e, t) ensures d == e {
      assert Holds(s, d, t) && Holds(s, e, t);
    }
    forall t | t in r.trips ensures TripOk(w, r, t, false) {
      TripFacts(w, s, {}, t);
      if s.trips[t].state == Offered {
        var d :| Holds(s, d, t);
        assert Holds(r, d, t);
      }
    }
  }

  lemma AtKeeps(w: Config, s: State, d: string, at: Location)
    requires Consistent(w, s, {}) && d != ""
    ensures Consistent(w, At(s, d, at), {})
  {
    SyncedAlone(s, s.(locations := s.locations[d := at]), d);
    LeasedAreOnline(w, s);
    hide IndexOk, Consistent;
    LocationsKeep(w, s, At(s, d, at));
  }

  lemma LeasedAreOnline(w: Config, s: State)
    requires Consistent(w, s, {})
    ensures forall d :: d in s.leases ==> d in s.locations && d != ""
  {
    forall d | d in s.leases ensures d in s.locations && d != "" {
      assert LeaseOk(s, d);
    }
  }

  lemma GoneKeeps(w: Config, s: State, d: string)
    requires Consistent(w, s, {}) && d !in s.leases
    ensures Consistent(w, Gone(s, d), {})
  {
    var s1 := s.(locations := s.locations - {d});
    OthersIndexed(s, s1, d);
    forall e ensures IndexedRight(Gone(s, d), e) {
      assert e != d ==> IndexedRight(s1, e);
    }
    LeasedAreOnline(w, s);
    hide Consistent;
    LocationsKeep(w, s, Gone(s, d));
  }

  /** A driver with an empty name reports in: recorded, never indexed. */
  lemma NamelessKeeps(w: Config, s: State, at: Location)
    requires Consistent(w, s, {})
    ensures Consistent(w, s.(locations := s.locations["" := at]), {})
  {
    var r := s.(locations := s.locations["" := at]);
    forall e ensures IndexedRight(r, e) {
      assert IndexedRight(s, e);
    }
    LeasedAreOnline(w, s);
    hide Consistent;
    LocationsKeep(w, s, r);
  }

  // ---------------------------------------------------------------- placing a trip

  lemma NextIsFree(w: Config, s: State, t: string, d: string)
    requires t in s.trips && Next(w, s, t, d)
    ensures d in s.index && d !in s.trips[t].declined
  {
  }

  lemma PlacedAt(w: Config, s: State, t: string, d: string, now: int)
    requires ConfigOk(w) && t in s.trips && Next(w, s, t, d)
    ensures d in s.index && Placed(w, s, t, now) == OfferedTo(w, s, t, d, now)
  {
    hide IsNearest, OfferedTo, Closer;
    NextIsFree(w, s, t, d);
    forall e | Next(w, s, t, e) ensures e == d {
      SameNext(w, s, t, d, e);
    }
  }

  lemma SameNext(w: Config, s: State, t: string, d: string, e: string)
    requires t in s.trips && Next(w, s, t, d) && Next(w, s, t, e)
    ensures d == e
  {
    hide IsNearest;
    NearestIsUnique(w, s.index, s.trips[t].pickup, s.trips[t].declined, w.maxRadius, d, e);
  }

  lemma PlacedKeeps(w: Config, s: State, t: string, now: int)
    requires ConfigOk(w) && Consistent(w, s, {t}) && t in s.trips
    ensures Consistent(w, Placed(w, s, t, now), {})
  {
    hide Consistent, Next, OfferedTo, WithState, Placed;
    if d :| Next(w, s, t, d) {
      NextIsFree(w, s, t, d);
      PlacedAt(w, s, t, d, now);
      OfferedKeeps(w, s, t, d, now);
    } else {
      OpenTrip(w, s, t);
      LetGo(w, s, {t}, t, Unfulfilled, {});
      NobodyNext(w, s, t, now);
    }
  }

  lemma NobodyNext(w: Config, s: State, t: string, now: int)
    requires ConfigOk(w) && t in s.trips && forall d :: !Next(w, s, t, d)
    ensures Placed(w, s, t, now) == WithState(s, t, Unfulfilled)
  {
  }

  lemma OfferedKeeps(w: Config, s: State, t: string, d: string, now: int)
    requires ConfigOk(w) && Consistent(w, s, {t}) && t in s.trips && d in s.index && d !in s.trips[t].declined
    ensures Consistent(w, OfferedTo(w, s, t, d, now), {})
  {
    hide Consistent, Leased;
    LeasedCloses(w, s, t, d, w.distance(s.trips[t].pickup, s.index[d]), now + w.offerTimeout,
                 StopRadius(w, s.index, s.trips[t].pickup, s.trips[t].declined, w.initialRadius));
  }

  lemma RedispatchedKeeps(w: Config, s: State, d: string, now: int)
    requires ConfigOk(w) && Consistent(w, s, {}) && d in s.leases
    ensures s.leases[d].tripId in s.trips && Consistent(w, Redispatched(w, s, d, now), {})
  {
    hide Consistent, Placed;
    RefusedOpens(w, s, d);
    PlacedKeeps(w, Refused(s, d), s.leases[d].tripId, now);
  }

  /** What a placement touches: its own trip, and at most one new lease, on a driver who was free. */
  ghost predicate OneOffer(w: Config, s: State, r: State, t: string, now: int) {
    && r.locations == s.locations && r.onTrip == s.onTrip && t in s.trips
    && r.trips.Keys == s.trips.Keys && (forall u :: u in s.trips && u != t ==> r.trips[u] == s.trips[u])
    && r.trips[t].declined == s.trips[t].declined
    && (forall d :: d in s.leases ==> d in r.leases && r.leases[d] == s.leases[d])
    && (forall d :: d in r.leases && d !in s.leases ==> r.leases[d].expiresAt == now + w.offerTimeout)
  }

  lemma PlacedFacts(w: Config, s: State, t: string, now: int)
    requires ConfigOk(w) && Consistent(w, s, {t}) && t in s.trips
    ensures OneOffer(w, s, Placed(w, s, t, now), t, now)
  {
    hide *;
    if d :| Next(w, s, t, d) {
      PlacedAt(w, s, t, d, now);
      NextIsFree(w, s, t, d);
      IndexedIsFree(w, s, {t}, d);
      OfferedFacts(w, s, t, d, now);
    } else {
      NobodyNext(w, s, t, now);
      GivenUpFacts(w, s, t, now);
    }
  }

  lemma OfferedFacts(w: Config, s: State, t: string, d: string, now: int)
    requires ConfigOk(w) && t in s.trips && d in s.index && Free(s, d)
    ensures OneOffer(w, s, OfferedTo(w, s, t, d, now), t, now)
  {
    hide StopRadius, ConfigOk;
  }

  lemma GivenUpFacts(w: Config, s: State, t: string, now: int)
    requires t in s.trips
    ensures OneOffer(w, s, WithState(s, t, Unfulfilled), t, now)
  {
  }

  // ---------------------------------------------------------------- the reaper

  /** The offers of the lease table that have run out, one entry each. */
  ghost predicate Overdue(s: State, now: int, expired: seq<Offer>) {
    && (forall j :: 0 <= j < |expired| ==> InForce(s, expired[j]) && expired[j].expiresAt <= now)
    && (forall d :: d in s.leases && s.leases[d].expiresAt <= now ==> s.leases[d] in expired)
    && (forall i, j :: 0 <= i < j < |expired| ==> expired[i].driverId != expired[j].driverId)
  }

  ghost predicate InForce(s: State, o: Offer) {
    o.driverId in s.leases && s.leases[o.driverId] == o
  }

  /** The lease tables after the reaper has worked off `expired`, one offer after the other. */
  ghost function Reaped(w: Config, s: State, expired: seq<Offer>, now: int): State
    requires ConfigOk(w)
  {
    if expired == [] then s else
      var r, o := Reaped(w, s, expired[..|expired| - 1], now), expired[|expired| - 1];
      if o.driverId in r.leases && r.leases[o.driverId].tripId in r.trips then Redispatched(w, r, o.driverId, now)
         else r
  }

  /** Halfway through: the first `i` offers are worked off, the rest still stand. */
  ghost predicate Reaping(w: Config, s: State, expired: seq<Offer>, now: int, i: nat, r: State)
    requires i <= |expired|
  {
    && Consistent(w, r, {}) && r.locations == s.locations && r.onTrip == s.onTrip && r.trips.Keys == s.trips.Keys
    && (forall j :: i <= j < |expired| ==> InForce(r, expired[j]))
    && (forall j :: 0 <= j < i ==> HasRefused(r, expired[j]))
    && (forall o :: InForce(r, o) && o.expiresAt != now + w.offerTimeout ==> InForce(s, o) && o !in expired[..i])
    && (forall o :: InForce(s, o) && o !in expired[..i] ==> InForce(r, o))
    && (forall u :: u in s.trips && (forall j :: 0 <= j < i ==> expired[j].tripId != u) ==> r.trips[u] == s.trips[u])
  }

  ghost predicate HasRefused(s: State, o: Offer) {
    o.tripId in s.trips && o.driverId in s.trips[o.tripId].declined
  }

  /** A driver who refused a trip is not offered it again. */
  lemma NotAgain(w: Config, s: State, d: string, now: int)
    requires ConfigOk(w) && Consistent(w, s, {}) && d in s.leases
    ensures s.leases[d].tripId in s.trips && d !in Redispatched(w, s, d, now).leases
  {
    hide *;
    var t := s.leases[d].tripId;
    RefusedOpens(w, s, d);
    RefusedFacts(s, d);
    PlacedElsewhere(w, Refused(s, d), t, d, now);
    RedispatchedIs(w, s, d, now);
  }

  lemma RedispatchedIs(w: Config, s: State, d: string, now: int)
    requires ConfigOk(w) && d in s.leases && s.leases[d].tripId in s.trips
    ensures s.leases[d].tripId in Refused(s, d).trips &&
            Redispatched(w, s, d, now) == Placed(w, Refused(s, d), s.leases[d].tripId, now)
  {
  }

  /** A trip is not offered to who has refused it, so who had no lease then has none afterwards. */
  lemma PlacedElsewhere(w: Config, s: State, t: string, d: string, now: int)
    requires ConfigOk(w) && t in s.trips && d in s.trips[t].declined && d !in s.leases
    ensures d !in Placed(w, s, t, now).leases
  {
    hide *;
    if e :| Next(w, s, t, e) {
      PlacedAt(w, s, t, e, now);
      NextIsFree(w, s, t, e);
      OnlyOneLeased(w, s, t, e, now);
    } else {
      NobodyNext(w, s, t, now);
      NoLeaseMore(s, t);
    }
  }

  lemma OnlyOneLeased(w: Config, s: State, t: string, d: string, now: int)
    requires ConfigOk(w) && t in s.trips && d in s.index
    ensures OfferedTo(w, s, t, d, now).leases.Keys == s.leases.Keys + {d}
  {
    hide StopRadius;
  }

  lemma NoLeaseMore(s: State, t: string)
    requires t in s.trips
    ensures WithState(s, t, Unfulfilled).leases == s.leases
  {
  }


  /** What one redispatch of driver `d`'s offer changes. */
  ghost predicate Moved(w: Config, s: State, r: State, d: string, now: int)
    requires d in s.leases
  {
    var t := s.leases[d].tripId;
    && r.locations == s.locations && r.onTrip == s.onTrip && r.trips.Keys == s.trips.Keys && t in s.trips
    && (forall u :: u in s.trips && u != t ==> r.trips[u] == s.trips[u])
    && s.trips[t].declined + {d} == r.trips[t].declined
    && (forall o :: InForce(s, o) && o.driverId != d ==> InForce(r, o))
    && (forall o :: InForce(r, o) && o.expiresAt != now + w.offerTimeout ==> InForce(s, o) && o.driverId != d)
  }

  lemma RedispatchMoves(w: Config, s: State, d: string, now: int)
    requires ConfigOk(w) && Consistent(w, s, {}) && d in s.leases
    ensures s.leases[d].tripId in s.trips && Moved(w, s, Redispatched(w, s, d, now), d, now)
  {
    RefusedOpens(w, s, d);
    PlacedFacts(w, Refused(s, d), s.leases[d].tripId, now);
    RefusedFacts(s, d);
    hide Consistent, Placed, Refused;
    MovedIs(w, s, Refused(s, d), Redispatched(w, s, d, now), d, now);
  }

  lemma RefusedFacts(s: State, d: string)
    requires d in s.leases && s.leases[d].tripId in s.trips
    ensures var r := Refused(s, d);
            && r.leases == s.leases - {d} && r.locations == s.locations && r.onTrip == s.onTrip
            && r.trips.Keys == s.trips.Keys &&
               (forall u :: u in s.trips && u != s.leases[d].tripId ==> r.trips[u] == s.trips[u])
            && r.trips[s.leases[d].tripId].declined == s.trips[s.leases[d].tripId].declined + {d}
  {
  }

  lemma MovedIs(w: Config, s: State, s1: State, r: State, d: string, now: int)
    requires d in s.leases && s.leases[d].tripId in s.trips && OneOffer(w, s1, r, s.leases[d].tripId, now)
    requires s1.leases == s.leases - {d} && s1.locations == s.locations && s1.onTrip == s.onTrip
    requires s1.trips.Keys == s.trips.Keys &&
             forall u :: u in s.trips && u != s.leases[d].tripId ==> s1.trips[u] == s.trips[u]
    requires s1.trips[s.leases[d].tripId].declined == s.trips[s.leases[d].tripId].declined + {d}
    ensures Moved(w, s, r, d, now)
  {
    forall o | InForce(s, o) && o.driverId != d ensures InForce(r, o) {
      assert o.driverId in s1.leases;
    }
    forall o | InForce(r, o) && o.expiresAt != now + w.offerTimeout ensures InForce(s, o) && o.driverId != d {
      assert o.driverId in s1.leases;
    }
  }

  lemma ReapStep(w: Config, s: State, expired: seq<Offer>, now: int, i: nat, next: nat, r: State)
    requires ConfigOk(w) && Overdue(s, now, expired) && i < |expired| && next == i + 1
    requires Reaping(w, s, expired, now, i, r)
    ensures InForce(r, expired[i]) && expired[i].tripId in r.trips
    ensures Reaping(w, s, expired, now, next, Redispatched(w, r, expired[i].driverId, now))
  {
    var o := expired[i];
    assert InForce(r, o);
    RedispatchMoves(w, r, o.driverId, now);
    RedispatchedKeeps(w, r, o.driverId, now);
    hide Consistent, Redispatched;
    ReapedOne(w, s, expired, now, i, next, r, Redispatched(w, r, o.driverId, now));
  }

  lemma ReapedOne(w: Config, s: State, expired: seq<Offer>, now: int, i: nat, next: nat, r: State, r2: State)
    requires Overdue(s, now, expired) && i < |expired| && next == i + 1
    requires Reaping(w, s, expired, now, i, r) && InForce(r, expired[i])
    requires Moved(w, r, r2, expired[i].driverId, now) && Consistent(w, r2, {})
    ensures Reaping(w, s, expired, now, next, r2)
  {
    hide Consistent, InForce, HasRefused;
    var o := expired[i];
    OneLeaseEach(r, o);
    assert expired[..next] == expired[..i] + [o];
    forall j | 0 <= j < next ensures HasRefused(r2, expired[j]) {
      if j < i {
        assert HasRefused(r, expired[j]);
        StillRefused(r, r2, expired[j], o);
      } else {
        NowRefused(r2, o);
      }
    }
    forall p | InForce(s, p) && p !in expired[..next] ensures InForce(r2, p) {
      assert InForce(r, p);
    }
  }

  lemma OneLeaseEach(r: State, o: Offer)
    requires InForce(r, o)
    ensures o.driverId in r.leases && r.leases[o.driverId] == o
    ensures forall p :: InForce(r, p) && p.driverId == o.driverId ==> p == o
  {
  }

  lemma StillRefused(r: State, r2: State, o: Offer, moved: Offer)
    requires HasRefused(r, o) && r2.trips.Keys == r.trips.Keys && moved.tripId in r.trips
    requires forall u :: u in r.trips && u != moved.tripId ==> r2.trips[u] == r.trips[u]
    requires r.trips[moved.tripId].declined + {moved.driverId} == r2.trips[moved.tripId].declined
    ensures HasRefused(r2, o)
  {
  }

  lemma NowRefused(r2: State, o: Offer)
    requires o.tripId in r2.trips && o.driverId in r2.trips[o.tripId].declined
    ensures HasRefused(r2, o)
  {
  }

  lemma {:induction false} ReapRuns(w: Config, s: State, expired: seq<Offer>, now: int, i: nat)
    requires ConfigOk(w) && Consistent(w, s, {}) && Overdue(s, now, expired) && i <= |expired|
    ensures Reaping(w, s, expired, now, i, Reaped(w, s, expired[..i], now))
  {
    hide Consistent, Overdue, Reaping, InForce, Redispatched;
    if i == 0 {
      ReapStarts(w, s, expired, now);
    } else {
      ReapRuns(w, s, expired, now, i - 1);
      ReapStep(w, s, expired, now, i - 1, i, Reaped(w, s, expired[..i - 1], now));
      ReapUnfolds(w, s, expired, now, i - 1, i);
    }
  }

  lemma ReapStarts(w: Config, s: State, expired: seq<Offer>, now: int)
    requires ConfigOk(w) && Consistent(w, s, {}) && Overdue(s, now, expired)
    ensures Reaping(w, s, expired, now, 0, Reaped(w, s, expired[..0], now))
  {
    hide Consistent;
  }

  lemma ReapUnfolds(w: Config, s: State, expired: seq<Offer>, now: int, i: nat, next: nat)
    requires ConfigOk(w) && i < |expired| && next == i + 1
    requires var r := Reaped(w, s, expired[..i], now); InForce(r, expired[i]) && expired[i].tripId in r.trips
    ensures Reaped(w, s, expired[..next], now) ==
            Redispatched(w, Reaped(w, s, expired[..i], now), expired[i].driverId, now)
  {
    hide Redispatched;
    assert expired[..next][..i] == expired[..i];
  }

  /** After the reaper nothing is overdue; every offer that was not is untouched, and every
      driver who let an offer run out counts as having refused it. */
  lemma ReapedIsCurrent(w: Config, s: State, expired: seq<Offer>, now: int)
    requires ConfigOk(w) && Consistent(w, s, {}) && Overdue(s, now, expired)
    ensures var r := Reaped(w, s, expired, now);
            && Consistent(w, r, {}) && r.locations == s.locations && r.onTrip == s.onTrip
            && (forall d :: d in r.leases ==> r.leases[d].expiresAt > now)
            && (forall d :: d in s.leases && s.leases[d].expiresAt > now ==>
                  d in r.leases && r.leases[d] == s.leases[d])
            && (forall d :: d in s.leases && s.leases[d].expiresAt <= now ==> HasRefused(r, s.leases[d]))
  {
    ReapRuns(w, s, expired, now, |expired|);
    assert expired[..|expired|] == expired;
    hide Reaped, Consistent, Overdue, HasRefused;
    var r := Reaped(w, s, expired, now);
    forall d | d in r.leases ensures r.leases[d].expiresAt > now {
      var o := r.leases[d];
      OwnLease(w, r, d);
      assert InForce(r, o);
      if o.expiresAt != now + w.offerTimeout {
        assert InForce(s, o);
        OverdueHas(s, now, expired, d);
      }
    }
    forall d | d in s.leases ensures
        && (s.leases[d].expiresAt > now ==> d in r.leases && r.leases[d] == s.leases[d])
        && (s.leases[d].expiresAt <= now ==> HasRefused(r, s.leases[d]))
    {
      OwnLease(w, s, d);
      assert InForce(s, s.leases[d]);
      OverdueHas(s, now, expired, d);
    }
  }

  lemma OwnLease(w: Config, s: State, d: string)
    requires Consistent(w, s, {}) && d in s.leases
    ensures s.leases[d].driverId == d
  {
    LeaseFacts(w, s, {}, d);
  }

  lemma OverdueHas(s: State, now: int, expired: seq<Offer>, d: string)
    requires Overdue(s, now, expired) && d in s.leases
    ensures s.leases[d] in expired <==> s.leases[d].expiresAt <= now
  {
  }

  // ---------------------------------------------------------------- what consistency means

  /** A driver has at most one of an offer and a ride; a trip is offered exactly when one lease
      names it and under way exactly when its driver is on it; the index holds the drivers with
      neither; and a trip waits unserved exactly when its pickup is off the map and nobody cancelled it. */
  lemma NobodyTwice(w: Config, s: State)
    requires Consistent(w, s, {})
    ensures s.leases.Keys !! s.onTrip.Keys
    ensures s.indexed == s.index.Keys && s.index.Keys == s.locations.Keys - s.leases.Keys - s.onTrip.Keys - {""}
    ensures forall d :: d in s.index ==> s.index[d] == s.locations[d]
    ensures forall t :: t in s.trips ==> (s.trips[t].state == Offered <==> exists d :: Holds(s, d, t))
    ensures forall t, d, e :: Holds(s, d, t) && Holds(s, e, t) ==> d == e
    ensures forall t :: t in s.trips ==> (Riding(s.trips[t]) <==> exists d :: Drives(s, d, t))
    ensures forall t, d :: Drives(s, d, t) ==> t in s.trips && s.trips[t].driver == Some(d)
    ensures forall t :: t in s.trips ==>
              (s.trips[t].state == Requested <==> !w.onEarth(s.trips[t].pickup) && s.trips[t].state != Cancelled)
  {
    forall d ensures IndexedRight(s, d) && !(d in s.leases && d in s.onTrip) {
      assert d in s.leases ==> LeaseOk(s, d);
    }
    IndexKeys(s);
    forall t | t in s.trips ensures TripOk(w, s, t, false) {
      TripFacts(w, s, {}, t);
    }
    forall t | t in s.trips ensures Riding(s.trips[t]) ==> exists d :: Drives(s, d, t) {
      assert Riding(s.trips[t]) ==> Drives(s, s.trips[t].driver.value, t);
    }
    hide Consistent, TripOk, Riding;
    forall t | t in s.trips ensures s.trips[t].state == Offered <==> exists d :: Holds(s, d, t) {
      OfferedMeansHeld(w, s, t);
    }
    assert forall t, d :: Drives(s, d, t) ==> t in s.trips && s.trips[t].driver == Some(d) by {
      DriversMatch(w, s);
    }
    HoldersMatch(w, s);
  }

  lemma IndexKeys(s: State)
    requires IndexOk(s)
    ensures s.index.Keys == s.locations.Keys - s.leases.Keys - s.onTrip.Keys - {""}
  {
    forall d ensures d in s.index.Keys <==> d in s.locations.Keys - s.leases.Keys - s.onTrip.Keys - {""} {
      assert IndexedRight(s, d);
    }
  }

  lemma OfferedMeansHeld(w: Config, s: State, t: string)
    requires Consistent(w, s, {}) && t in s.trips
    ensures s.trips[t].state == Offered <==> exists d :: Holds(s, d, t)
  {
    TripFacts(w, s, {}, t);
    if d :| Holds(s, d, t) {
      LeaseFacts(w, s, {}, d);
    }
  }

  lemma DriversMatch(w: Config, s: State)
    requires Consistent(w, s, {})
    ensures forall t, d :: Drives(s, d, t) ==> t in s.trips && s.trips[t].driver == Some(d) && Riding(s.trips[t])
  {
  }

  lemma HoldersMatch(w: Config, s: State)
    requires Consistent(w, s, {})
    ensures forall t, d, e :: Holds(s, d, t) && Holds(s, e, t) ==> d == e
  {
  }
}
