/** The location lifecycle (app/crud/locations.py): reads, creation with its
    address and distances, update with recompute, and deletion. Its imports
    resolve against the backend address and distance operations, so creation
    and recompute use the tolerant pass. */
module Locations {
  import opened Wrappers
  import opened Seqs
  import opened Geo
  import opened Db
  import opened Matrix
  import opened Addresses
  import opened Distances

  /** The fields of a location request other than its address, then the address. */
  datatype LocationInput = LocationInput(
    name: string, summary: Option<string>, description: string,
    priceEstimateMin: int, priceEstimateMax: int, address: AddressInput)

  function LocationKey(): Location -> nat { (l: Location) => l.id }

  /** `get_location`: the location with the given id, or None. */
  function GetLocation(db: Store, locationId: nat): (r: Option<Location>)
    reads db
    ensures r.Some? ==> r.value in db.locations && r.value.id == locationId
    ensures r.None? <==> forall l :: l in db.locations ==> l.id != locationId
  {
    match LocationIndex(db.locations, locationId)
    case Some(i) => Some(db.locations[i])
    case None => None
  }

  /** `get_locations`: at most `limit` locations, starting at offset `skip`. */
  function GetLocations(db: Store, skip: nat, limit: nat): (r: seq<Location>)
    reads db
    ensures |r| == if skip < |db.locations| then Min(limit, |db.locations| - skip) else 0
    ensures forall i :: 0 <= i < |r| ==> r[i] == db.locations[skip + i]
  {
    Page(db.locations, skip, limit)
  }

  /** The request's own fields written onto a location row. */
  function WithFields(l: Location, input: LocationInput): (r: Location)
    ensures r.id == l.id && r.addressId == l.addressId && r.creationUserId == l.creationUserId
    ensures r.name == input.name && r.summary == input.summary && r.description == input.description
    ensures r.priceEstimateMin == input.priceEstimateMin && r.priceEstimateMax == input.priceEstimateMax
  {
    l.(name := input.name, summary := input.summary, description := input.description,
       priceEstimateMin := input.priceEstimateMin, priceEstimateMax := input.priceEstimateMax)
  }

  /** `db.add` and commit of a new location under the next primary key. */
  method InsertLocation(db: Store, location: Location)
    requires db.Valid() && location.id == db.nextLocationId && HasAddress(db.addresses, location.addressId)
    modifies db
    ensures db.Valid()
    ensures db.locations == old(db.locations) + [location] && db.nextLocationId == old(db.nextLocationId) + 1
    ensures db.addresses == old(db.addresses) && db.homes == old(db.homes) && db.distances == old(db.distances)
    ensures db.nextAddressId == old(db.nextAddressId) && db.nextHomeId == old(db.nextHomeId)
  {
    var before := db.locations;
    db.locations := db.locations + [location];
    db.nextLocationId := db.nextLocationId + 1;
    forall d | d in db.distances ensures HasLocation(db.locations, d.destinationLocationId) {
      FindAfterAppend(before, [location], LocationKey(), d.destinationLocationId);
    }
  }

  /** `create_location`: create the address, then the location referring to
      it and to its creator, then materialise its distances from every home
      with the tolerant pass. Nothing is written when the address fails; once
      the location is committed a failing pass leaves it in place. */
  method CreateLocation(db: Store, input: LocationInput, userId: nat, geo: Provider) returns (r: Result<Location>)
    requires db.Valid()
    modifies db
    ensures db.Valid()
    ensures NewAddress(old(db.nextAddressId), input.address, geo).Err? ==>
      && r == Err(NewAddress(old(db.nextAddressId), input.address, geo).failure)
      && db.addresses == old(db.addresses) && db.homes == old(db.homes)
      && db.locations == old(db.locations) && db.distances == old(db.distances)
      && db.nextAddressId == old(db.nextAddressId) && db.nextLocationId == old(db.nextLocationId)
    ensures NewAddress(old(db.nextAddressId), input.address, geo).Ok? ==>
      db.nextAddressId == old(db.nextAddressId) + 1 && db.nextLocationId == old(db.nextLocationId) + 1
    ensures db.nextHomeId == old(db.nextHomeId)
    ensures NewAddress(old(db.nextAddressId), input.address, geo).Ok? ==>
      var location := Location(old(db.nextLocationId), input.name, input.summary, input.description,
                               input.priceEstimateMin, input.priceEstimateMax, old(db.nextAddressId), userId);
      && db.addresses == old(db.addresses) + [NewAddress(old(db.nextAddressId), input.address, geo).value]
      && db.locations == old(db.locations) + [location]
      && db.homes == old(db.homes)
      && HasAddress(db.addresses, location.addressId)
      && var pass := LocationPass(db.addresses, db.homes, location, geo, SkipNotFound);
         && db.distances == old(db.distances) + pass.rows
         && RowsTo(db.distances, location.id) == pass.rows
         && r == if pass.outcome == Completed then Ok(location) else Err(pass.outcome.failure)
  {
    var address := CreateAddress(db, input.address, geo);
    if address.Err? {
      return Err(address.failure);
    }
    FoundAt(db.addresses, (a: Address) => a.id, address.value.id, |db.addresses| - 1);
    var location := Location(db.nextLocationId, input.name, input.summary, input.description,
                             input.priceEstimateMin, input.priceEstimateMax, address.value.id, userId);
    assert !HasLocation(db.locations, location.id);
    NoRowsToAbsentLocation(db.distances, db.homes, db.locations, location.id);
    InsertLocation(db, location);
    ghost var before := db.distances;
    var outcome := CreateLocationDistances(db, location, geo, SkipNotFound);
    r := if outcome == Completed then Ok(location) else Err(outcome.failure);
    var pass := LocationPass(db.addresses, db.homes, location, geo, SkipNotFound);
    LocationPassRows(HomeEndpoints(db.homes, db.addresses), LocationEndpoint(location, db.addresses), geo, SkipNotFound);
    FilterAppend(before, pass.rows, ToLocation(location.id));
    FilterKeepsAll(pass.rows, ToLocation(location.id));
  }

  /** Replaces the location at index `i` by one with the same primary key. */
  method ReplaceLocation(db: Store, i: nat, location: Location)
    requires db.Valid() && i < |db.locations| && db.locations[i].id == location.id
    requires HasAddress(db.addresses, location.addressId)
    modifies db
    ensures db.Valid()
    ensures db.locations == old(db.locations)[i := location]
    ensures db.addresses == old(db.addresses) && db.homes == old(db.homes) && db.distances == old(db.distances)
    ensures db.nextAddressId == old(db.nextAddressId) && db.nextHomeId == old(db.nextHomeId)
    ensures db.nextLocationId == old(db.nextLocationId)
  {
    var before := db.locations;
    db.locations := db.locations[i := location];
    forall d | d in db.distances ensures HasLocation(db.locations, d.destinationLocationId) {
      FindAfterReplace(before, i, location, LocationKey(), d.destinationLocationId);
    }
    assert forall j :: 0 <= j < |before| ==> db.locations[j].id == before[j].id;
  }

  /** `update_location`: overwrite every field of the location but its
      address, update the address with id `addressId`, then recompute the
      location's distances. A missing location skips the update but still
      reaches the recompute, which fails on the absent object; an address
      failure persists nothing. */
  method UpdateLocation(db: Store, input: LocationInput, locationId: nat, addressId: nat, geo: Provider)
    returns (r: Result<Location>)
    requires db.Valid()
    modifies db
    ensures db.Valid()
    ensures db.nextAddressId == old(db.nextAddressId) && db.nextHomeId == old(db.nextHomeId)
    ensures db.nextLocationId == old(db.nextLocationId)
    ensures var update := AddressUpdate(old(db.addresses), input.address, addressId, geo);
      (!HasLocation(old(db.locations), locationId) || update.Err?) ==>
        && r == Err(if HasLocation(old(db.locations), locationId) then update.failure else Other)
        && db.addresses == old(db.addresses) && db.homes == old(db.homes)
        && db.locations == old(db.locations) && db.distances == old(db.distances)
    ensures var update := AddressUpdate(old(db.addresses), input.address, addressId, geo);
      HasLocation(old(db.locations), locationId) && update.Ok? ==>
        var i := LocationIndex(old(db.locations), locationId).value;
        var location := WithFields(old(db.locations)[i], input);
        && db.addresses == old(db.addresses)[AddressIndex(old(db.addresses), addressId).value := update.value]
        && db.locations == old(db.locations)[i := location]
        && db.homes == old(db.homes)
        && HasAddress(db.addresses, location.addressId)
        && var pass := LocationPass(db.addresses, db.homes, location, geo, SkipNotFound);
           && db.distances == RowsNotTo(old(db.distances), locationId) + pass.rows
           && RowsTo(db.distances, locationId) == pass.rows
           && r == if pass.outcome == Completed then Ok(location) else Err(pass.outcome.failure)
  {
    var index := LocationIndex(db.locations, locationId);
    if index.None? {
      return Err(Other);
    }
    var i := index.value;
    var location := WithFields(db.locations[i], input);
    var address := UpdateAddress(db, input.address, addressId, geo);
    if address.Err? {
      return Err(address.failure);
    }
    ReplaceLocation(db, i, location);
    assert db.locations[i] == location;
    var outcome := UpdateLocationDistances(db, location, geo);
    r := if outcome == Completed then Ok(location) else Err(outcome.failure);
  }

  /** Removing the location at index `i` and every row to it keeps the tables valid. */
  lemma RemovedLocationValid(addresses: seq<Address>, homes: seq<Home>, locations: seq<Location>,
                             distances: seq<Distance>, nextAddressId: nat, nextHomeId: nat, nextLocationId: nat, i: nat)
    requires EntitiesValid(addresses, homes, locations, nextAddressId, nextHomeId, nextLocationId)
    requires RowsReferToEntities(distances, homes, locations)
    requires i < |locations|
    ensures EntitiesValid(addresses, homes, Without(locations, i), nextAddressId, nextHomeId, nextLocationId)
    ensures RowsReferToEntities(RowsNotTo(distances, locations[i].id), homes, Without(locations, i))
    ensures forall l :: l in Without(locations, i) <==> l in locations && l.id != locations[i].id
  {
    RemoveAt(locations, i, LocationKey());
    forall d | d in RowsNotTo(distances, locations[i].id)
      ensures HasLocation(Without(locations, i), d.destinationLocationId)
    {
      FindAfterRemove(locations, i, LocationKey(), d.destinationLocationId);
    }
  }

  /** `delete_location`: remove the location if it exists, with every row
      whose destination it is (the delete-orphan cascade); otherwise change
      nothing. The address row stays. */
  method DeleteLocation(db: Store, locationId: nat)
    requires db.Valid()
    modifies db
    ensures db.Valid()
    ensures db.addresses == old(db.addresses) && db.homes == old(db.homes)
    ensures db.distances == RowsNotTo(old(db.distances), locationId)
    ensures forall l :: l in db.locations <==> l in old(db.locations) && l.id != locationId
    ensures HasLocation(old(db.locations), locationId) ==>
      db.locations == Without(old(db.locations), LocationIndex(old(db.locations), locationId).value)
    ensures db.nextAddressId == old(db.nextAddressId) && db.nextHomeId == old(db.nextHomeId)
    ensures db.nextLocationId == old(db.nextLocationId)
    ensures !HasLocation(old(db.locations), locationId) ==>
      db.locations == old(db.locations) && db.distances == old(db.distances)
  {
    var index := LocationIndex(db.locations, locationId);
    if index.None? {
      NoRowsToAbsentLocation(db.distances, db.homes, db.locations, locationId);
      return;
    }
    RemoveLocationAt(db, index.value);
  }

  /** The found branch of `delete_location`: the location at index `i` and
      the rows to it go, nothing else changes. */
  method RemoveLocationAt(db: Store, i: nat)
    requires db.Valid() && i < |db.locations|
    modifies db
    ensures db.Valid()
    ensures db.locations == Without(old(db.locations), i)
    ensures db.distances == RowsNotTo(old(db.distances), old(db.locations[i].id))
    ensures forall l :: l in db.locations <==> l in old(db.locations) && l.id != old(db.locations[i].id)
    ensures db.addresses == old(db.addresses) && db.homes == old(db.homes)
    ensures db.nextAddressId == old(db.nextAddressId) && db.nextHomeId == old(db.nextHomeId)
    ensures db.nextLocationId == old(db.nextLocationId)
  {
    RemovedLocationValid(db.addresses, db.homes, db.locations, db.distances,
                         db.nextAddressId, db.nextHomeId, db.nextLocationId, i);
    db.locations, db.distances := Without(db.locations, i), RowsNotTo(db.distances, db.locations[i].id);
  }
}
