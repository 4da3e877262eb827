/** The dispatch service: driver pings, ride requests, leases and the trip life cycle. */
module Dispatch {
  import opened DispatchState
  import opened Wrappers

  datatype Result<+T> = Ok(value: T) | NotFound | Conflict | InvalidState | Invalid

  /** A search that stops with hits has found the next driver; one that stops without has
      looked as far as it may. */
  lemma SearchDecides(w: Config, s: State, t: string, hits: seq<string>, radius: nat)
    requires ConfigOk(w) && t in s.trips
    requires radius == StopRadius(w, s.index, s.trips[t].pickup, s.trips[t].declined, w.initialRadius)
    requires IsTop(w, s.index, s.trips[t].pickup, s.trips[t].declined, radius, w.candidates, hits)
    ensures hits != [] ==> Next(w, s, t, hits[0]) && hits[0] in s.index
    ensures hits == [] ==> forall d :: !Next(w, s, t, d)
  {
    var at, avoid := s.trips[t].pickup, s.trips[t].declined;
    TopIsNearest(w, s.index, at, avoid, radius, w.candidates, hits);
    hide IsTop, StopRadius, Closer;
    if hits != [] {
      NearestInside(w, s.index, at, avoid, radius, w.maxRadius, hits[0]);
    }
  }

  class DispatchService {
    const w: Config
    var locations: Drivers
    var index: Drivers
    var indexed: set<string>
    var leases: map<string, Offer>
    var onTrip: map<string, string>
    var trips: map<string, Trip>

    ghost function Snap(): (s: State)
      reads this
      ensures s == State(locations, index, indexed, leases, onTrip, trips)
    {
      State(locations, index, indexed, leases, onTrip, trips)
    }

    ghost predicate Valid()
      reads this
    {
      ConfigOk(w) && Consistent(w, Snap(), {})
    }

    lemma Unpack()
      requires Valid()
      ensures ConfigOk(w) && Consistent(w, Snap(), {}) && indexed == index.Keys
      ensures w.candidates > 0 && 0 < w.initialRadius <= w.maxRadius
    {
    }

    lemma Repack()
      requires ConfigOk(w) && Consistent(w, Snap(), {})
      ensures Valid()
    {
    }

    constructor (w: Config)
      requires ConfigOk(w)
      ensures Valid() && this.w == w
      ensures Snap() == State(map[], map[], {}, map[], map[], map[])
    {
      this.w := w;
      locations, index, indexed, leases, onTrip, trips := map[], map[], {}, map[], map[], map[];
    }

    // -------------------------------------------------------------- the index

    method SyncIndex(d: string)
      requires indexed == index.Keys
      modifies this`index, this`indexed
      ensures Snap() == Synced(old(Snap()), d)
    {
      var free := d in locations && d !in leases && d !in onTrip;
      if free {
        index := index[d := locations[d]];
        indexed := indexed + {d};
      } else if d in indexed {
        index := index - {d};
        indexed := indexed - {d};
      }
    }

    method Place(d: string, at: Location) returns (r: Result<()>)
      requires Valid()
      modifies this`locations, this`index, this`indexed
      ensures Valid()
      ensures r == if w.onEarth(at) && d != "" then Ok(()) else Invalid
      ensures Snap() == if !w.onEarth(at) then old(Snap())
                        else if d == "" then old(Snap()).(locations := old(locations)[d := at])
                        else At(old(Snap()), d, at)
    {
      hide Consistent, ConfigOk, Synced;
      Unpack();
      if !w.onEarth(at) {
        return Invalid;
      }
      if d == "" {
        NamelessKeeps(w, Snap(), at);
        locations := locations[d := at];
        Repack();
        return Invalid;
      }
      AtKeeps(w, Snap(), d, at);
      locations := locations[d := at];
      SyncIndex(d);
      Repack();
      return Ok(());
    }

    method GoOnline(d: string, at: Location) returns (r: Result<()>)
      requires Valid()
      modifies this`locations, this`index, this`indexed
      ensures Valid()
      ensures r == if w.onEarth(at) && d != "" then Ok(()) else Invalid
      ensures r.Ok? ==> Snap() == At(old(Snap()), d, at)
      ensures r.Invalid? ==> Snap() == old(Snap()) || Snap() == old(Snap()).(locations := old(locations)["" := at])
    {
      hide *;
      r := Place(d, at);
    }

    method UpdateLocation(d: string, at: Location) returns (r: Result<()>)
      requires Valid()
      modifies this`locations, this`index, this`indexed
      ensures Valid()
      ensures d !in old(locations) ==> r == NotFound && Snap() == old(Snap())
      ensures d in old(locations) ==> r == if w.onEarth(at) && d != "" then Ok(()) else Invalid
      ensures r.Ok? ==> Snap() == At(old(Snap()), d, at)
      ensures r.Invalid? ==> Snap() == old(Snap()) || Snap() == old(Snap()).(locations := old(locations)["" := at])
    {
      hide *;
      if d !in locations {
        return NotFound;
      }
      r := Place(d, at);
    }

    // -------------------------------------------------------------- matching

    /** The nearest of a non-empty set of indexed drivers. */
    method Least(at: Location, ds: set<string>) returns (least: string)
      requires ds != {} && ds <= index.Keys
      ensures least in ds && forall e :: e in ds && e != least ==> Closer(w, index, at, least, e)
    {
      hide Closer;
      var rest := ds;
      least :| least in rest;
      rest := rest - {least};
      while rest != {}
        invariant rest <= ds && least in ds && least !in rest
        invariant forall e :: e in ds && e !in rest && e != least ==> Closer(w, index, at, least, e)
        decreases rest
      {
        var d :| d in rest;
        rest := rest - {d};
        CloserOrder(w, index, at, d, least, d);
        if Closer(w, index, at, d, least) {
          forall e | e in ds && e !in rest && e != d ensures Closer(w, index, at, d, e) {
            CloserOrder(w, index, at, d, least, e);
          }
          least := d;
        }
      }
    }

    /** At most `limit` indexed drivers within the radius, nearest first. */
    method Nearby(at: Location, radius: nat, limit: nat) returns (hits: seq<string>)
      ensures IsTop(w, index, at, {}, radius, limit, hits)
    {
      hide Closer, IsTop;
      var rest := set d | d in index && w.distance(at, index[d]) <= radius;
      ghost var all := rest;
      hits := [];
      while |hits| < limit && rest != {}
        invariant |hits| <= limit && rest <= all <= index.Keys
        invariant forall d :: d in all <==> d in rest || d in hits
        invariant InOrder(w, index, at, hits)
        invariant forall i, e :: 0 <= i < |hits| && e in rest ==> Closer(w, index, at, hits[i], e)
        decreases rest
      {
        var d := Least(at, rest);
        hits, rest := hits + [d], rest - {d};
      }
      FoundIsTop(at, radius, limit, hits, rest, all);
    }

    lemma FoundIsTop(at: Location, radius: nat, limit: nat, hits: seq<string>, rest: set<string>, all: set<string>)
      requires all == set d | d in index && w.distance(at, index[d]) <= radius
      requires |hits| <= limit && (|hits| == limit || rest == {}) && rest <= all
      requires forall d :: d in all <==> d in rest || d in hits
      requires InOrder(w, index, at, hits)
      requires forall i, e :: 0 <= i < |hits| && e in rest ==> Closer(w, index, at, hits[i], e)
      ensures IsTop(w, index, at, {}, radius, limit, hits)
    {
      hide Closer, InOrder;
      forall i | 0 <= i < |hits| ensures Eligible(w, index, at, {}, radius, hits[i]) {
        assert hits[i] in hits && hits[i] in all;
      }
      forall e | Eligible(w, index, at, {}, radius, e) && e !in hits ensures e in rest {
        assert e in all;
      }
    }

    /** Drop the excluded from a list of hits. */
    method WithoutExcluded(found: seq<string>, exclude: set<string>) returns (hits: seq<string>)
      ensures hits == Keep(found, exclude)
    {
      hits := [];
      for i := 0 to |found|
        invariant hits == Keep(found[..i], exclude)
      {
        assert found[..i + 1][..i] == found[..i];
        if found[i] !in exclude {
          hits := hits + [found[i]];
        }
      }
      assert found[..|found|] == found;
    }

    /** Nearest first over the index, the radius doubling until somebody is eligible. */
    method Search(at: Location, k: nat, exclude: set<string>) returns (hits: seq<string>, radius: nat)
      requires ConfigOk(w) && k > 0
      ensures radius == StopRadius(w, index, at, exclude, w.initialRadius)
      ensures IsTop(w, index, at, exclude, radius, k, hits)
    {
      hide IsTop, Keep;
      radius := w.initialRadius;
      while true
        invariant 0 < radius <= w.maxRadius
        invariant StopRadius(w, index, at, exclude, radius) == StopRadius(w, index, at, exclude, w.initialRadius)
        decreases w.maxRadius - radius
      {
        var found := Nearby(at, radius, k + |exclude|);
        hits := WithoutExcluded(found, exclude);
        ExcludedCannotCrowdOut(w, index, at, exclude, radius, k, found);
        hits := if |hits| <= k then hits else hits[..k];
        AnyHit(at, exclude, radius, k, hits);
        if hits != [] || radius >= w.maxRadius {
          return;
        }
        radius := if radius * 2 <= w.maxRadius then radius * 2 else w.maxRadius;
      }
    }

    lemma AnyHit(at: Location, exclude: set<string>, radius: nat, k: nat, hits: seq<string>)
      requires IsTop(w, index, at, exclude, radius, k, hits) && k > 0
      ensures hits != [] <==> exists d :: Eligible(w, index, at, exclude, radius, d)
    {
      hide Closer, InOrder;
      TopIsNearest(w, index, at, exclude, radius, k, hits);
      if hits != [] {
        assert Eligible(w, index, at, exclude, radius, hits[0]);
      }
    }

    /** `Trip.to`: the transition table decides. */
    method To(t: string, state: TripState) returns (ok: bool)
      requires t in trips
      modifies this`trips
      ensures ok <==> Legal(old(trips[t].state), state)
      ensures Snap() == if ok then WithState(old(Snap()), t, state) else old(Snap())
    {
      ok := Legal(trips[t].state, state);
      if ok {
        trips := trips[t := trips[t].(state := state)];
      }
    }

    /** Lease the closest untried driver, or give up. */
    method OfferToNext(t: string, now: int)
      requires ConfigOk(w) && Consistent(w, Snap(), {t}) && t in trips
      modifies this
      ensures Valid() && Snap() == Placed(w, old(Snap()), t, now)
    {
      hide *;
      ghost var s := Snap();
      Searchable(t);
      PlacedKeeps(w, s, t, now);
      var trip := trips[t];
      var hits, radius := Search(trip.pickup, w.candidates, trip.declined);
      SearchDecides(w, s, t, hits, radius);
      if hits == [] {
        NobodyNext(w, s, t, now);
        var ok := To(t, Unfulfilled);
        FromRequested();
        assert ok;
        Repack();
        return;
      }
      var best := hits[0];
      PlacedAt(w, s, t, best, now);
      OfferSteps(s, t, best, now, radius);
      leases := leases[best := Offer(t, best, w.distance(trip.pickup, index[best]), now + w.offerTimeout)];
      SyncIndex(best);
      trips := trips[t := trips[t].(offers := trips[t].offers + 1, matchedRadius := radius)];
      var ok := To(t, Offered);
      FromRequested();
      assert ok;
      Repack();
    }

    lemma Searchable(t: string)
      requires ConfigOk(w) && Consistent(w, Snap(), {t}) && t in trips
      ensures indexed == index.Keys && w.candidates > 0 && trips[t].state == Requested
    {
      TripFacts(w, Snap(), {t}, t);
    }

    lemma FromRequested()
      ensures Legal(Requested, Unfulfilled) && Legal(Requested, Offered) && Legal(Offered, Requested)
      ensures Legal(Offered, Assigned) && Legal(Offered, Cancelled)
    {
    }

    /** The offer's steps in the order they are taken. */
    lemma OfferSteps(s: State, t: string, best: string, now: int, radius: nat)
      requires ConfigOk(w) && t in s.trips && best in s.index
      requires radius == StopRadius(w, s.index, s.trips[t].pickup, s.trips[t].declined, w.initialRadius)
      ensures var s1 := Synced(s.(leases :=
                                  s.leases[best := Offer(t, best, w.distance(s.trips[t].pickup, s.index[best]),
                                                         now + w.offerTimeout)]), best);
              && s1.trips == s.trips && s1.leases ==
                 s.leases[best := Offer(t, best, w.distance(s.trips[t].pickup, s.index[best]), now + w.offerTimeout)]
              && s1.locations == s.locations && s1.onTrip == s.onTrip
              && var s2 := s1.(trips := s.trips[t :=
                                                s.trips[t].(offers := s.trips[t].offers + 1, matchedRadius := radius)]);
                 WithState(s2, t, Offered) == OfferedTo(w, s, t, best, now)
    {
      hide StopRadius;
      var trip := s.trips[t];
      assert s.trips[t := trip.(offers := trip.offers + 1, matchedRadius := radius)][t :=
               trip.(offers := trip.offers + 1, matchedRadius := radius, state := Offered)]
          == s.trips[t := trip.(offers := trip.offers + 1, matchedRadius := radius, state := Offered)];
    }

    // -------------------------------------------------------------- commands

    /** The lease table's overdue offers, in some order. */
    method Expired(now: int) returns (expired: seq<Offer>)
      requires Valid()
      ensures Overdue(Snap(), now, expired)
    {
      hide Consistent;
      LeasesNamed();
      expired := [];
      var rest := leases.Keys;
      while rest != {}
        invariant rest <= leases.Keys
        invariant forall j :: 0 <= j < |expired| ==>
                    expired[j].driverId !in rest && InForce(Snap(), expired[j]) && expired[j].expiresAt <= now
        invariant forall d :: d in leases && d !in rest && leases[d].expiresAt <= now ==> leases[d] in expired
        invariant forall i, j :: 0 <= i < j < |expired| ==> expired[i].driverId != expired[j].driverId
        decreases rest
      {
        var d :| d in rest;
        rest := rest - {d};
        if leases[d].expiresAt <= now {
          expired := expired + [leases[d]];
        }
      }
    }

    lemma LeasesNamed()
      requires Valid()
      ensures forall d :: d in leases ==> leases[d].driverId == d
    {
      forall d | d in leases ensures leases[d].driverId == d {
        LeaseFacts(w, Snap(), {}, d);
      }
    }

    /** Give the driver's lease up, note the refusal and offer the trip to the next driver. */
    method Redispatch(d: string, t: string, now: int)
      requires Valid() && d in leases && leases[d].tripId == t
      modifies this
      ensures Valid() && t in old(trips) && Snap() == Redispatched(w, old(Snap()), d, now)
    {
      hide *;
      ghost var s := Snap();
      Unpack();
      TripOfLease(d);
      RefusedOpens(w, s, d);
      RefusedSteps(s, d);
      trips := trips[t := trips[t].(declined := trips[t].declined + {d})];
      leases := leases - {d};
      SyncIndex(d);
      var ok := To(t, Requested);
      FromRequested();
      assert ok;
      OfferToNext(t, now);
    }

    lemma TripOfLease(d: string)
      requires Valid() && d in leases
      ensures leases[d].tripId in trips && trips[leases[d].tripId].state == Offered
    {
      LeaseFacts(w, Snap(), {}, d);
    }

    lemma RefusedSteps(s: State, d: string)
      requires ConfigOk(w) && d in s.leases && s.leases[d].tripId in s.trips
      ensures var t := s.leases[d].tripId;
              var refused := s.trips[t := s.trips[t].(declined := s.trips[t].declined + {d})];
              var s1 := Synced(s.(trips := refused, leases := s.leases - {d}), d);
              s1.trips == refused && WithState(s1, t, Requested) == Refused(s, d) && t in Refused(s, d).trips
      ensures forall now :: Redispatched(w, s, d, now) == Placed(w, Refused(s, d), s.leases[d].tripId, now)
    {
      hide Placed;
      var t := s.leases[d].tripId;
      var trip := s.trips[t].(declined := s.trips[t].declined + {d});
      assert s.trips[t := trip][t := trip.(state := Requested)] == s.trips[t := trip.(state := Requested)];
    }

    /** Release the leases that have run out and dispatch their trips again. */
    method ReapExpiredOffers(now: int) returns (released: seq<string>, ghost expired: seq<Offer>)
      requires Valid()
      modifies this
      ensures Valid() && Overdue(old(Snap()), now, expired) && Snap() == Reaped(w, old(Snap()), expired, now)
      ensures |released| == |expired| && forall j :: 0 <= j < |released| ==> released[j] == expired[j].driverId
    {
      hide *;
      ghost var s := Snap();
      Unpack();
      var offers := Expired(now);
      expired := offers;
      released := [];
      ReapRuns(w, s, offers, now, 0);
      NothingReaped(s, offers, now);
      for i := 0 to |offers|
        invariant Valid() && Snap() == Reaped(w, s, offers[..i], now)
        invariant |released| == i && forall j :: 0 <= j < i ==> released[j] == offers[j].driverId
      {
        var o := offers[i];
        ReapRuns(w, s, offers, now, i);
        ReapStep(w, s, offers, now, i, i + 1, Snap());
        ReapUnfolds(w, s, offers, now, i, i + 1);
        HasLease(Snap(), o);
        TripOfLease(o.driverId);
        assert trips[o.tripId].state == Offered;  // so the test before a redispatch never fails
        Redispatch(o.driverId, o.tripId, now);
        released := released + [o.driverId];
      }
      assert offers[..|offers|] == offers;
    }

    lemma NothingReaped(s: State, offers: seq<Offer>, now: int)
      requires ConfigOk(w)
      ensures Reaped(w, s, offers[..0], now) == s
    {
    }

    lemma HasLease(s: State, o: Offer)
      requires InForce(s, o)
      ensures o.driverId in s.leases && s.leases[o.driverId] == o
    {
    }

    /** Reap, then open a trip and offer it to the nearest dispatchable driver. A pickup off the
        map is refused only after the trip is on record. */
    method RequestRide(t: string, rider: string, pickup: Location, now: int)
        returns (r: Result<Trip>, ghost expired: seq<Offer>)
      requires Valid() && t !in trips
      modifies this
      ensures Valid() && Overdue(old(Snap()), now, expired) && t in trips
      ensures var s := Reaped(w, old(Snap()), expired, now);
              var posted := s.(trips := s.trips[t := Trip(rider, pickup, now, Requested, None, 0, 0, {})]);
              Snap() == if w.onEarth(pickup) then Placed(w, posted, t, now) else posted
      ensures r == if w.onEarth(pickup) then Ok(trips[t]) else Invalid
    {
      hide *;
      ghost var s0 := Snap();
      Unpack();
      var released;
      released, expired := ReapExpiredOffers(now);
      Unpack();
      NotOnRecord(s0, expired, now, t);
      var trip := Trip(rider, pickup, now, Requested, None, 0, 0, {});
      NewTripKeeps(w, Snap(), t, trip);
      trips := trips[t := trip];
      if !w.onEarth(pickup) {
        Repack();
        return Invalid, expired;
      }
      ghost var posted := Snap();
      OfferToNext(t, now);
      StaysOnRecord(posted, t, now);
      return Ok(trips[t]), expired;
    }

    lemma NotOnRecord(s: State, expired: seq<Offer>, now: int, t: string)
      requires ConfigOk(w) && Consistent(w, s, {}) && Overdue(s, now, expired) && t !in s.trips
      ensures t !in Reaped(w, s, expired, now).trips
    {
      ReapRuns(w, s, expired, now, |expired|);
      assert expired[..|expired|] == expired;
      hide Reaped, Consistent;
    }

    lemma StaysOnRecord(s: State, t: string, now: int)
      requires ConfigOk(w) && Consistent(w, s, {t}) && t in s.trips
      ensures t in Placed(w, s, t, now).trips
    {
      PlacedFacts(w, s, t, now);
      hide Placed, Consistent;
    }

    /** The driver's current lease on this trip, if there is one. */
    method RequireLease(d: string, t: string) returns (r: Result<Offer>)
      ensures r == if d in leases && leases[d].tripId == t then Ok(leases[d]) else Conflict
    {
      if d !in leases || leases[d].tripId != t {
        return Conflict;
      }
      return Ok(leases[d]);
    }

    method AcceptOffer(d: string, t: string, now: int) returns (r: Result<Trip>)
      requires Valid()
      modifies this
      ensures Valid()
      ensures var s := old(Snap());
              if Holds(s, d, t) && now < s.leases[d].expiresAt
              then t in s.trips && Snap() == Accepted(s, d) && r == Ok(trips[t])
              else Snap() == s && r == Conflict
    {
      hide *;
      ghost var s := Snap();
      Unpack();
      WhoHolds(s, d, t);
      var lease := RequireLease(d, t);
      if lease.Conflict? || now >= lease.value.expiresAt {
        return Conflict;
      }
      TripOfLease(d);
      AcceptedKeeps(w, s, d);
      AcceptedSteps(s, d);
      var ok := To(t, Assigned);
      FromRequested();
      assert ok;
      trips := trips[t := trips[t].(driver := Some(d))];
      leases := leases - {d};
      onTrip := onTrip[d := t];
      SyncIndex(d);
      Repack();
      return Ok(trips[t]);
    }

    lemma WhoHolds(s: State, d: string, t: string)
      ensures Holds(s, d, t) <==> d in s.leases && s.leases[d].tripId == t
    {
    }

    lemma AcceptedSteps(s: State, d: string)
      requires d in s.leases && s.leases[d].tripId in s.trips
      ensures var t := s.leases[d].tripId;
              var s1 := WithState(s, t, Assigned);
              && s1.leases == s.leases && s1.onTrip == s.onTrip && s1.index == s.index && s1.indexed == s.indexed
              && s1.locations == s.locations && s1.trips.Keys == s.trips.Keys &&
                 s1.trips[t] == s.trips[t].(state := Assigned)
              && Synced(s1.(trips := s1.trips[t := s1.trips[t].(driver := Some(d))], leases := s.leases - {d}, onTrip :=
                            s.onTrip[d := t]), d)
                 == Accepted(s, d)
              && t in Accepted(s, d).trips
    {
      var t := s.leases[d].tripId;
      var trip := s.trips[t].(state := Assigned);
      assert s.trips[t := trip][t := trip.(driver := Some(d))] == s.trips[t := trip.(driver := Some(d))];
    }

    method DeclineOffer(d: string, t: string, now: int) returns (r: Result<Trip>)
      requires Valid()
      modifies this
      ensures Valid()
      ensures var s := old(Snap());
              if Holds(s, d, t)
              then t in s.trips && t in trips && Snap() == Redispatched(w, s, d, now) && r == Ok(trips[t])
              else Snap() == s && r == Conflict
    {
      hide *;
      ghost var s := Snap();
      Unpack();
      WhoHolds(s, d, t);
      var lease := RequireLease(d, t);
      if lease.Conflict? {
        return Conflict;
      }
      MovedOn(s, d, now);
      Redispatch(d, t, now);
      return Ok(trips[t]);
    }

    lemma MovedOn(s: State, d: string, now: int)
      requires ConfigOk(w) && Consistent(w, s, {}) && d in s.leases
      ensures s.leases[d].tripId in s.trips
      ensures var r := Redispatched(w, s, d, now);
              s.leases[d].tripId in r.trips && d !in r.leases && r.locations == s.locations && r.onTrip == s.onTrip
    {
      RedispatchMoves(w, s, d, now);
      RefusedOpens(w, s, d);
      RefusedFacts(s, d);
      NotAgain(w, s, d, now);
      hide Consistent, Redispatched;
    }

    /** An offline driver's offer counts as declined. */
    method GoOffline(d: string, now: int)
      requires Valid()
      modifies this
      ensures Valid() && d !in locations && d !in leases
      ensures d !in old(leases) ==> Snap() == Gone(old(Snap()), d)
      ensures d in old(leases) ==>
                old(leases)[d].tripId in old(trips) && Snap() == Gone(Redispatched(w, old(Snap()), d, now), d)
    {
      hide *;
      ghost var s := Snap();
      Unpack();
      if d in leases {
        MovedOn(s, d, now);
        WhoHolds(s, d, leases[d].tripId);
        var r := DeclineOffer(d, leases[d].tripId, now);
        Unpack();
      }
      GoneKeeps(w, Snap(), d);
      GoneSteps(Snap(), d);
      locations := locations - {d};
      SyncIndex(d);
      Repack();
    }

    lemma GoneSteps(s: State, d: string)
      ensures Gone(s, d) == Synced(s.(locations := s.locations - {d}), d)
      ensures d !in Gone(s, d).locations && Gone(s, d).leases == s.leases
    {
    }

    method StartTrip(t: string) returns (r: Result<Trip>)
      requires Valid()
      modifies this
      ensures Valid()
      ensures t !in old(trips) ==> r == NotFound && Snap() == old(Snap())
      ensures t in old(trips) ==> if old(trips)[t].state == Assigned
                                  then Snap() == WithState(old(Snap()), t, InProgress) && t in trips &&
                                      r == Ok(trips[t])
                                  else r == InvalidState && Snap() == old(Snap())
    {
      hide Consistent, ConfigOk, Valid;
      Unpack();
      if t !in trips {
        return NotFound;
      }
      ghost var s := Snap();
      var ok := To(t, InProgress);
      if !ok {
        return InvalidState;
      }
      StartedKeeps(w, s, t);
      Repack();
      return Ok(trips[t]);
    }

    method CompleteTrip(t: string) returns (r: Result<Trip>)
      requires Valid()
      modifies this
      ensures Valid()
      ensures t !in old(trips) ==> r == NotFound && Snap() == old(Snap())
      ensures t in old(trips) ==>
                var trip := old(trips)[t];
                if trip.state == InProgress
                then trip.driver.Some? && Snap() == Finished(old(Snap()), t, trip.driver.value, Completed) &&
                    t in trips && r == Ok(trips[t])
                else r == InvalidState && Snap() == old(Snap())
    {
      hide Consistent, ConfigOk, Valid, Synced;
      Unpack();
      if t !in trips {
        return NotFound;
      }
      ghost var s := Snap();
      var ok := To(t, Completed);
      if !ok {
        return InvalidState;
      }
      FinishedKeeps(w, s, t, Completed);
      var trip := trips[t];
      if trip.driver.Some? {
        onTrip := onTrip - {trip.driver.value};
        SyncedTables(Snap(), trip.driver.value);
        SyncIndex(trip.driver.value);
      }
      Repack();
      return Ok(trips[t]);
    }

    lemma SyncedTables(s: State, d: string)
      ensures Synced(s, d).trips == s.trips
    {
    }

    /** Whoever holds an offer on the trip, if anybody does. */
    method HolderOf(t: string) returns (holder: Option<string>)
      ensures holder.Some? ==> Holds(Snap(), holder.value, t)
      ensures holder.None? ==> forall d :: !Holds(Snap(), d, t)
    {
      holder := None;
      var rest := leases.Keys;
      while rest != {}
        invariant rest <= leases.Keys
        invariant holder.None? && forall d :: d in leases && d !in rest ==> leases[d].tripId != t
        decreases rest
      {
        var d :| d in rest;
        if leases[d].tripId == t {
          return Some(d);
        }
        rest := rest - {d};
      }
    }

    /** What a cancellation releases: the lease of an offered trip, the driver of an assigned one. */
    ghost predicate CancelledAs(s: State, r: State, t: string)
      requires t in s.trips
    {
      match s.trips[t].state
      case Offered => exists d :: Holds(s, d, t) && r == Revoked(s, t, d)
      case Assigned => s.trips[t].driver.Some? && r == Finished(s, t, s.trips[t].driver.value, Cancelled)
      case _ => r == WithState(s, t, Cancelled)
    }

    method CancelTrip(t: string) returns (r: Result<Trip>)
      requires Valid()
      modifies this
      ensures Valid()
      ensures t !in old(trips) ==> r == NotFound && Snap() == old(Snap())
      ensures t in old(trips) ==> if old(trips)[t].state in {Requested, Offered, Assigned}
                                  then CancelledAs(old(Snap()), Snap(), t) && t in trips && r == Ok(trips[t])
                                  else r == InvalidState && Snap() == old(Snap())
    {
      hide Consistent, ConfigOk, Valid, Synced, CancelledAs;
      Unpack();
      if t !in trips {
        return NotFound;
      }
      ghost var s := Snap();
      var released := trips[t].driver;
      if trips[t].state == Offered {
        released := HolderOf(t);
        assert Snap() == s;
        if released.Some? {
          leases := leases - {released.value};
        }
      }
      CancelReleases(s, t, released);
      var ok := To(t, Cancelled);
      if !ok {
        return InvalidState;
      }
      if released.Some? {
        onTrip := onTrip - {released.value};
        SyncedTables(Snap(), released.value);
        SyncIndex(released.value);
      }
      Repack();
      return Ok(trips[t]);
    }

    /** Taking away what a cancellation finds is enough, and leaves the tables consistent. */
    lemma CancelReleases(s: State, t: string, released: Option<string>)
      requires Consistent(w, s, {}) && t in s.trips
      requires s.trips[t].state != Offered ==> released == s.trips[t].driver
      requires s.trips[t].state == Offered ==>
                 if released.Some? then Holds(s, released.value, t) else forall d :: !Holds(s, d, t)
      ensures Legal(s.trips[t].state, Cancelled) ==>
                var leases' := if s.trips[t].state == Offered && released.Some? then s.leases - {released.value}
                    else s.leases;
                var c := WithState(s, t, Cancelled).(leases := leases');
                var r := if released.Some? then Synced(c.(onTrip := s.onTrip - {released.value}), released.value)
                    else c;
                CancelledAs(s, r, t) && Consistent(w, r, {})
    {
      hide *;
      match s.trips[t].state
      case Offered =>
        OfferHasHolder(s, t);
        CancelOffered(s, t, released.value);
      case Assigned =>
        CancelAssigned(s, t);
      case Requested =>
        CancelRequested(s, t);
      case _ => NotCancellable(s.trips[t].state);
    }

    lemma NotCancellable(state: TripState)
      requires !state.Offered? && !state.Assigned? && !state.Requested?
      ensures !Legal(state, Cancelled)
    {
    }

    lemma OfferHasHolder(s: State, t: string)
      requires Consistent(w, s, {}) && t in s.trips && s.trips[t].state == Offered
      ensures exists d :: Holds(s, d, t)
    {
      TripFacts(w, s, {}, t);
      hide Consistent;
    }

    lemma CancelOffered(s: State, t: string, d: string)
      requires Consistent(w, s, {}) && t in s.trips && s.trips[t].state == Offered && Holds(s, d, t)
      ensures var r := Synced(WithState(s, t, Cancelled).(leases := s.leases - {d}).(onTrip := s.onTrip - {d}), d);
              CancelledAs(s, r, t) && Consistent(w, r, {})
    {
      RevokedKeeps(w, s, t, d);
      HolderLeases(s, d, t);
      NotDriving(s, d);
      hide Consistent, Synced;
      assert s.onTrip - {d} == s.onTrip;
      assert Synced(WithState(s, t, Cancelled).(leases := s.leases - {d}).(onTrip := s.onTrip - {d}), d) ==
             Revoked(s, t, d);
    }

    lemma HolderLeases(s: State, d: string, t: string)
      requires Holds(s, d, t)
      ensures d in s.leases
    {
    }

    lemma CancelAssigned(s: State, t: string)
      requires Consistent(w, s, {}) && t in s.trips && s.trips[t].state == Assigned
      ensures s.trips[t].driver.Some?
      ensures var d := s.trips[t].driver.value;
              var r := Synced(WithState(s, t, Cancelled).(leases := s.leases).(onTrip := s.onTrip - {d}), d);
              CancelledAs(s, r, t) && Consistent(w, r, {})
    {
      FinishedKeeps(w, s, t, Cancelled);
      hide Consistent, Synced;
    }

    lemma CancelRequested(s: State, t: string)
      requires Consistent(w, s, {}) && t in s.trips && s.trips[t].state == Requested
      ensures s.trips[t].driver.None?
      ensures CancelledAs(s, WithState(s, t, Cancelled).(leases := s.leases), t) &&
              Consistent(w, WithState(s, t, Cancelled).(leases := s.leases), {})
    {
      TripFacts(w, s, {}, t);
      hide Consistent;
      LetGo(w, s, {}, t, Cancelled, {});
    }

    lemma NotDriving(s: State, d: string)
      requires Consistent(w, s, {}) && d in s.leases
      ensures d !in s.onTrip
    {
      LeaseFacts(w, s, {}, d);
    }

    /** Reap, then list the `k` nearest dispatchable drivers. */
    method NearestAvailable(at: Location, k: int, now: int) returns (r: Result<seq<string>>, ghost expired: seq<Offer>)
      requires Valid()
      modifies this
      ensures Valid()
      ensures k <= 0 ==> r == Invalid && Snap() == old(Snap())
      ensures k > 0 ==> Overdue(old(Snap()), now, expired) && Snap() == Reaped(w, old(Snap()), expired, now)
      ensures k > 0 ==> r.Ok? && IsTop(w, index, at, {}, StopRadius(w, index, at, {}, w.initialRadius), k, r.value)
    {
      hide *;
      expired := [];
      if k <= 0 {
        return Invalid, expired;
      }
      var released;
      released, expired := ReapExpiredOffers(now);
      Unpack();
      var hits, radius := Search(at, k, {});
      return Ok(hits), expired;
    }
  }
}
