/** Materialising and recomputing the distance rows of one home or one
    location (backend/app/crud/distances.py; with `AbortOnAny`, the older
    app/crud/distances.py). */
module Distances {
  import opened Wrappers
  import opened Seqs
  import opened Geo
  import opened Db
  import opened Matrix

  /** The pass `create_home_distances` makes: the home against every location. */
  function HomePass(addresses: seq<Address>, locations: seq<Location>, home: Home, geo: Provider, policy: Policy)
    : (p: Pass)
    requires HasAddress(addresses, home.addressId)
    requires forall l :: l in locations ==> HasAddress(addresses, l.addressId)
    ensures |p.rows| <= |locations|
    ensures forall d :: d in p.rows ==>
      d.sourceHomeId == home.id && exists j :: 0 <= j < |locations| && d.destinationLocationId == locations[j].id
  {
    HomePassRows(HomeEndpoint(home, addresses), LocationEndpoints(locations, addresses), geo, policy);
    Scan(HomeLegs(HomeEndpoint(home, addresses), LocationEndpoints(locations, addresses)), geo, policy)
  }

  /** The pass `create_location_distances` makes: every home against the location. */
  function LocationPass(addresses: seq<Address>, homes: seq<Home>, location: Location, geo: Provider, policy: Policy)
    : (p: Pass)
    requires HasAddress(addresses, location.addressId)
    requires forall h :: h in homes ==> HasAddress(addresses, h.addressId)
    ensures |p.rows| <= |homes|
    ensures forall d :: d in p.rows ==>
      d.destinationLocationId == location.id && exists j :: 0 <= j < |homes| && d.sourceHomeId == homes[j].id
  {
    LocationPassRows(HomeEndpoints(homes, addresses), LocationEndpoint(location, addresses), geo, policy);
    Scan(LocationLegs(HomeEndpoints(homes, addresses), LocationEndpoint(location, addresses)), geo, policy)
  }

  lemma HomeInStore(db: Store, home: Home)
    requires db.Valid() && home in db.homes
    ensures HasHome(db.homes, home.id) && HasAddress(db.addresses, home.addressId)
  {
    var i :| 0 <= i < |db.homes| && db.homes[i] == home;
  }

  lemma LocationInStore(db: Store, location: Location)
    requires db.Valid() && location in db.locations
    ensures HasLocation(db.locations, location.id) && HasAddress(db.addresses, location.addressId)
  {
    var i :| 0 <= i < |db.locations| && db.locations[i] == location;
  }

  /** Rows of a home's pass refer to that home and to existing locations, so
      appending them keeps the foreign keys intact. */
  lemma HomePassKeepsReferences(addresses: seq<Address>, homes: seq<Home>, locations: seq<Location>,
                                before: seq<Distance>, home: Home, geo: Provider, policy: Policy)
    requires home in homes && HasAddress(addresses, home.addressId)
    requires forall l :: l in locations ==> HasAddress(addresses, l.addressId)
    requires RowsReferToEntities(before, homes, locations)
    ensures RowsReferToEntities(before + HomePass(addresses, locations, home, geo, policy).rows, homes, locations)
  {
    var targets := LocationEndpoints(locations, addresses);
    HomePassRows(HomeEndpoint(home, addresses), targets, geo, policy);
    var k :| 0 <= k < |homes| && homes[k] == home;
    forall d | d in HomePass(addresses, locations, home, geo, policy).rows
      ensures HasHome(homes, d.sourceHomeId) && HasLocation(locations, d.destinationLocationId)
    {
      var j :| 0 <= j < |targets| && d.destinationLocationId == targets[j].id;
      assert locations[j].id == targets[j].id;
    }
  }

  /** Rows of a location's pass refer to existing homes and to that location. */
  lemma LocationPassKeepsReferences(addresses: seq<Address>, homes: seq<Home>, locations: seq<Location>,
                                    before: seq<Distance>, location: Location, geo: Provider, policy: Policy)
    requires location in locations && HasAddress(addresses, location.addressId)
    requires forall h :: h in homes ==> HasAddress(addresses, h.addressId)
    requires RowsReferToEntities(before, homes, locations)
    ensures RowsReferToEntities(before + LocationPass(addresses, homes, location, geo, policy).rows, homes, locations)
  {
    var sources := HomeEndpoints(homes, addresses);
    LocationPassRows(sources, LocationEndpoint(location, addresses), geo, policy);
    var k :| 0 <= k < |locations| && locations[k] == location;
    forall d | d in LocationPass(addresses, homes, location, geo, policy).rows
      ensures HasHome(homes, d.sourceHomeId) && HasLocation(locations, d.destinationLocationId)
    {
      var j :| 0 <= j < |sources| && d.sourceHomeId == sources[j].id;
      assert homes[j].id == sources[j].id;
    }
  }

  /** The loop both passes share: one lookup per leg, in order; each found
      duration is added and committed at once; a failure the policy catches is
      skipped; any other ends the loop and leaves the rows already committed. */
  method RunPass(db: Store, legs: seq<Leg>, geo: Provider, policy: Policy) returns (outcome: Outcome)
    modifies db
    ensures db.distances == old(db.distances) + Scan(legs, geo, policy).rows
    ensures outcome == Scan(legs, geo, policy).outcome
    ensures db.addresses == old(db.addresses) && db.homes == old(db.homes) && db.locations == old(db.locations)
    ensures db.nextAddressId == old(db.nextAddressId) && db.nextHomeId == old(db.nextHomeId)
    ensures db.nextLocationId == old(db.nextLocationId)
  {
    var i := 0;
    outcome := Completed;
    while i < |legs| && outcome == Completed
      invariant 0 <= i <= |legs|
      invariant db.addresses == old(db.addresses) && db.homes == old(db.homes) && db.locations == old(db.locations)
      invariant db.nextAddressId == old(db.nextAddressId) && db.nextHomeId == old(db.nextHomeId)
      invariant db.nextLocationId == old(db.nextLocationId)
      invariant db.distances == old(db.distances) + Scan(legs[..i], geo, policy).rows
      invariant outcome == Scan(legs[..i], geo, policy).outcome
    {
      ScanStep(legs, geo, policy, i);
      var minutes := DistanceMinutes(legs[i], geo);
      if minutes.Ok? {
        db.distances := db.distances + [Row(legs[i], minutes.value)];
      } else if !Caught(policy, minutes.failure) {
        outcome := Aborted(minutes.failure);
      }
      i := i + 1;
    }
    if outcome == Completed {
      assert legs[..i] == legs;
    } else {
      AbortIsFinal(legs, geo, policy, i);
    }
  }

  /** `create_home_distances`: the loop over the home against every location,
      in table order. Under `SkipNotFound` a `NotFound` lookup is skipped; any
      other failure, and under `AbortOnAny` every failure, ends the pass and
      leaves the rows already committed. */
  method CreateHomeDistances(db: Store, home: Home, geo: Provider, policy: Policy) returns (outcome: Outcome)
    requires db.Valid() && home in db.homes
    modifies db
    ensures db.Valid()
    ensures db.addresses == old(db.addresses) && db.homes == old(db.homes) && db.locations == old(db.locations)
    ensures db.nextAddressId == old(db.nextAddressId) && db.nextHomeId == old(db.nextHomeId)
    ensures db.nextLocationId == old(db.nextLocationId)
    ensures var pass := HomePass(db.addresses, db.locations, home, geo, policy);
      db.distances == old(db.distances) + pass.rows && outcome == pass.outcome
  {
    HomeInStore(db, home);
    var legs := HomeLegs(HomeEndpoint(home, db.addresses), LocationEndpoints(db.locations, db.addresses));
    outcome := RunPass(db, legs, geo, policy);
    HomePassKeepsReferences(db.addresses, db.homes, db.locations, old(db.distances), home, geo, policy);
  }

  /** `create_location_distances`: the mirror image, every home in table
      order against the location. */
  method CreateLocationDistances(db: Store, location: Location, geo: Provider, policy: Policy) returns (outcome: Outcome)
    requires db.Valid() && location in db.locations
    modifies db
    ensures db.Valid()
    ensures db.addresses == old(db.addresses) && db.homes == old(db.homes) && db.locations == old(db.locations)
    ensures db.nextAddressId == old(db.nextAddressId) && db.nextHomeId == old(db.nextHomeId)
    ensures db.nextLocationId == old(db.nextLocationId)
    ensures var pass := LocationPass(db.addresses, db.homes, location, geo, policy);
      db.distances == old(db.distances) + pass.rows && outcome == pass.outcome
  {
    LocationInStore(db, location);
    var legs := LocationLegs(HomeEndpoints(db.homes, db.addresses), LocationEndpoint(location, db.addresses));
    outcome := RunPass(db, legs, geo, policy);
    LocationPassKeepsReferences(db.addresses, db.homes, db.locations, old(db.distances), location, geo, policy);
  }

  lemma {:induction false} ReplaceHomeRows(ds: seq<Distance>, homeId: nat, renewed: seq<Distance>)
    requires forall d :: d in renewed ==> d.sourceHomeId == homeId
    ensures RowsFrom(RowsNotFrom(ds, homeId) + renewed, homeId) == renewed
    ensures RowsNotFrom(RowsNotFrom(ds, homeId) + renewed, homeId) == RowsNotFrom(ds, homeId)
  {
    var kept := RowsNotFrom(ds, homeId);
    FilterAppend(kept, renewed, FromHome(homeId));
    FilterAppend(kept, renewed, NotFromHome(homeId));
    FilterKeepsNone(kept, FromHome(homeId));
    FilterKeepsAll(renewed, FromHome(homeId));
    FilterKeepsAll(kept, NotFromHome(homeId));
    FilterKeepsNone(renewed, NotFromHome(homeId));
  }

  /** Replacing one location's rows by `renewed` rows to that location. */
  lemma {:induction false} ReplaceLocationRows(ds: seq<Distance>, locationId: nat, renewed: seq<Distance>)
    requires forall d :: d in renewed ==> d.destinationLocationId == locationId
    ensures RowsTo(RowsNotTo(ds, locationId) + renewed, locationId) == renewed
    ensures RowsNotTo(RowsNotTo(ds, locationId) + renewed, locationId) == RowsNotTo(ds, locationId)
  {
    var kept := RowsNotTo(ds, locationId);
    FilterAppend(kept, renewed, ToLocation(locationId));
    FilterAppend(kept, renewed, NotToLocation(locationId));
    FilterKeepsNone(kept, ToLocation(locationId));
    FilterKeepsAll(renewed, ToLocation(locationId));
    FilterKeepsAll(kept, NotToLocation(locationId));
    FilterKeepsNone(renewed, NotToLocation(locationId));
  }

  /** `update_home_distances`: bulk-delete every row whose source is the home,
      commit, then run the tolerant pass again. The home's rows end up exactly
      those of the renewed pass; no other row changes. */
  method UpdateHomeDistances(db: Store, home: Home, geo: Provider) returns (outcome: Outcome)
    requires db.Valid() && home in db.homes
    modifies db
    ensures db.Valid()
    ensures db.addresses == old(db.addresses) && db.homes == old(db.homes) && db.locations == old(db.locations)
    ensures db.nextAddressId == old(db.nextAddressId) && db.nextHomeId == old(db.nextHomeId)
    ensures db.nextLocationId == old(db.nextLocationId)
    ensures var pass := HomePass(db.addresses, db.locations, home, geo, SkipNotFound);
      && db.distances == RowsNotFrom(old(db.distances), home.id) + pass.rows
      && outcome == pass.outcome
      && RowsFrom(db.distances, home.id) == pass.rows
      && RowsNotFrom(db.distances, home.id) == RowsNotFrom(old(db.distances), home.id)
  {
    db.distances := RowsNotFrom(db.distances, home.id);
    outcome := CreateHomeDistances(db, home, geo, SkipNotFound);
    HomeInStore(db, home);
    var pass := HomePass(db.addresses, db.locations, home, geo, SkipNotFound);
    HomePassRows(HomeEndpoint(home, db.addresses), LocationEndpoints(db.locations, db.addresses), geo, SkipNotFound);
    ReplaceHomeRows(old(db.distances), home.id, pass.rows);
  }

  /** `update_location_distances`: bulk-delete every row whose destination is
      the location, commit, then run the tolerant pass again. */
  method UpdateLocationDistances(db: Store, location: Location, geo: Provider) returns (outcome: Outcome)
    requires db.Valid() && location in db.locations
    modifies db
    ensures db.Valid()
    ensures db.addresses == old(db.addresses) && db.homes == old(db.homes) && db.locations == old(db.locations)
    ensures db.nextAddressId == old(db.nextAddressId) && db.nextHomeId == old(db.nextHomeId)
    ensures db.nextLocationId == old(db.nextLocationId)
    ensures var pass := LocationPass(db.addresses, db.homes, location, geo, SkipNotFound);
      && db.distances == RowsNotTo(old(db.distances), location.id) + pass.rows
      && outcome == pass.outcome
      && RowsTo(db.distances, location.id) == pass.rows
      && RowsNotTo(db.distances, location.id) == RowsNotTo(old(db.distances), location.id)
  {
    db.distances := RowsNotTo(db.distances, location.id);
    outcome := CreateLocationDistances(db, location, geo, SkipNotFound);
    LocationInStore(db, location);
    var pass := LocationPass(db.addresses, db.homes, location, geo, SkipNotFound);
    LocationPassRows(HomeEndpoints(db.homes, db.addresses), LocationEndpoint(location, db.addresses), geo, SkipNotFound);
    ReplaceLocationRows(old(db.distances), location.id, pass.rows);
  }

  /** No keep-last-good: a pair whose lookup fails during a recompute has no
      row afterwards, even if the table held one for it before. */
  lemma RecomputeDropsFailedPair(ds: seq<Distance>, home: Endpoint, locations: seq<Endpoint>, geo: Provider, j: nat)
    requires j < |locations|
    requires forall a, b :: 0 <= a < b < |locations| ==> locations[a].id != locations[b].id
    requires DistanceMinutes(Leg(home, locations[j]), geo).Err?
    ensures forall d :: d in RowsNotFrom(ds, home.id) + Scan(HomeLegs(home, locations), geo, SkipNotFound).rows ==>
      !(d.sourceHomeId == home.id && d.destinationLocationId == locations[j].id)
  {
    var legs := HomeLegs(home, locations);
    forall d | d in Scan(legs, geo, SkipNotFound).rows
      ensures !(d.sourceHomeId == home.id && d.destinationLocationId == locations[j].id)
    {
      PassRowsComeFromLegs(legs, geo, SkipNotFound, d);
    }
  }

  /** No existence check: for a home that had no rows, running its pass a
      second time with every lookup answering leaves the row of each location
      in the table exactly twice, where one pass leaves it once. */
  lemma SecondPassDuplicates(ds: seq<Distance>, home: Endpoint, locations: seq<Endpoint>, geo: Provider,
                             policy: Policy, j: nat)
    requires j < |locations|
    requires forall a, b :: 0 <= a < b < |locations| ==> locations[a].id != locations[b].id
    requires forall k :: 0 <= k < |locations| ==> DistanceMinutes(Leg(home, locations[k]), geo).Ok?
    requires RowsFrom(ds, home.id) == []
    ensures var rows := Scan(HomeLegs(home, locations), geo, policy).rows;
      var row := Row(Leg(home, locations[j]), DistanceMinutes(Leg(home, locations[j]), geo).value);
      && multiset(RowsFrom(ds + rows, home.id))[row] == 1
      && multiset(RowsFrom(ds + rows + rows, home.id))[row] == 2
  {
    var legs := HomeLegs(home, locations);
    var rows := Scan(legs, geo, policy).rows;
    ScanStopsAtFirstUncaughtFailure(legs, geo, policy);
    assert legs[..|legs|] == legs;
    ResolvedAllFound(legs, geo);
    assert rows[j] == Row(Leg(home, locations[j]), DistanceMinutes(Leg(home, locations[j]), geo).value);
    forall k | 0 <= k < |rows| && k != j ensures rows[k] != rows[j] {
      assert rows[k].destinationLocationId == locations[k].id;
      if k < j {
        assert locations[k].id != locations[j].id;
      } else {
        assert locations[j].id != locations[k].id;
      }
    }
    OccursOnce(rows, j);
    assert forall d :: d in rows ==> FromHome(home.id)(d);
    FilterKeepsAll(rows, FromHome(home.id));
    FilterAppend(ds, rows, FromHome(home.id));
    FilterAppend(ds + rows, rows, FromHome(home.id));
  }
}
