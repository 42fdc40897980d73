/** The persisted tables: addresses, homes, locations and the distance rows
    between homes and locations. */
module Db {
  import opened Wrappers
  import opened Seqs

  datatype AddressText = AddressText(street: string, city: string, postalCode: string, country: string)

  /** A stored address; both coordinate columns are NOT NULL. */
  datatype Address = Address(id: nat, text: AddressText, latitude: real, longitude: real)

  datatype Home = Home(id: nat, name: string, addressId: nat, creationUserId: nat)

  datatype Location = Location(
    id: nat, name: string, summary: Option<string>, description: string,
    priceEstimateMin: int, priceEstimateMax: int, addressId: nat, creationUserId: nat)

  /** One row of the distance table. No constraint makes the pair unique. */
  datatype Distance = Distance(sourceHomeId: nat, destinationLocationId: nat, walkingDistanceMinutes: int)

  /** An entity's id together with the coordinates of its address. */
  datatype Endpoint = Endpoint(id: nat, longitude: real, latitude: real)

  function AddressIndex(addresses: seq<Address>, id: nat): Option<nat> { Find(addresses, (a: Address) => a.id, id) }
  function HomeIndex(homes: seq<Home>, id: nat): Option<nat> { Find(homes, (h: Home) => h.id, id) }
  function LocationIndex(locations: seq<Location>, id: nat): Option<nat> { Find(locations, (l: Location) => l.id, id) }

  predicate HasAddress(addresses: seq<Address>, id: nat) { AddressIndex(addresses, id).Some? }
  predicate HasHome(homes: seq<Home>, id: nat) { HomeIndex(homes, id).Some? }
  predicate HasLocation(locations: seq<Location>, id: nat) { LocationIndex(locations, id).Some? }

  /** `home.address` followed through the foreign key. */
  function HomeEndpoint(home: Home, addresses: seq<Address>): (e: Endpoint)
    requires HasAddress(addresses, home.addressId)
  {
    var a := addresses[AddressIndex(addresses, home.addressId).value];
    Endpoint(home.id, a.longitude, a.latitude)
  }

  function LocationEndpoint(location: Location, addresses: seq<Address>): (e: Endpoint)
    requires HasAddress(addresses, location.addressId)
  {
    var a := addresses[AddressIndex(addresses, location.addressId).value];
    Endpoint(location.id, a.longitude, a.latitude)
  }

  function HomeEndpoints(homes: seq<Home>, addresses: seq<Address>): (es: seq<Endpoint>)
    requires forall h :: h in homes ==> HasAddress(addresses, h.addressId)
  {
    seq(|homes|, i requires 0 <= i < |homes| => HomeEndpoint(homes[i], addresses))
  }

  function LocationEndpoints(locations: seq<Location>, addresses: seq<Address>): (es: seq<Endpoint>)
    requires forall l :: l in locations ==> HasAddress(addresses, l.addressId)
  {
    seq(|locations|, i requires 0 <= i < |locations| => LocationEndpoint(locations[i], addresses))
  }

  function FromHome(homeId: nat): Distance -> bool { (d: Distance) => d.sourceHomeId == homeId }
  function NotFromHome(homeId: nat): Distance -> bool { (d: Distance) => d.sourceHomeId != homeId }
  function ToLocation(locationId: nat): Distance -> bool { (d: Distance) => d.destinationLocationId == locationId }
  function NotToLocation(locationId: nat): Distance -> bool { (d: Distance) => d.destinationLocationId != locationId }

  /** `home.distances`: the rows whose source is the home. */
  function RowsFrom(ds: seq<Distance>, homeId: nat): seq<Distance> { Filter(ds, FromHome(homeId)) }
  /** What a bulk delete by `source_home_id` leaves. */
  function RowsNotFrom(ds: seq<Distance>, homeId: nat): seq<Distance> { Filter(ds, NotFromHome(homeId)) }
  /** `location.distances`: the rows whose destination is the location. */
  function RowsTo(ds: seq<Distance>, locationId: nat): seq<Distance> { Filter(ds, ToLocation(locationId)) }
  /** What a bulk delete by `destination_location_id` leaves. */
  function RowsNotTo(ds: seq<Distance>, locationId: nat): seq<Distance> { Filter(ds, NotToLocation(locationId)) }

  ghost predicate EntitiesValid(addresses: seq<Address>, homes: seq<Home>, locations: seq<Location>,
                                nextAddressId: nat, nextHomeId: nat, nextLocationId: nat)
  {
    && (forall i, j :: 0 <= i < j < |addresses| ==> addresses[i].id != addresses[j].id)
    && (forall i, j :: 0 <= i < j < |homes| ==> homes[i].id != homes[j].id)
    && (forall i, j :: 0 <= i < j < |locations| ==> locations[i].id != locations[j].id)
    && (forall a :: a in addresses ==> a.id < nextAddressId)
    && (forall h :: h in homes ==> h.id < nextHomeId)
    && (forall l :: l in locations ==> l.id < nextLocationId)
    && (forall h :: h in homes ==> HasAddress(addresses, h.addressId))
    && (forall l :: l in locations ==> HasAddress(addresses, l.addressId))
  }

  ghost predicate RowsReferToEntities(distances: seq<Distance>, homes: seq<Home>, locations: seq<Location>)
  {
    forall d :: d in distances ==> HasHome(homes, d.sourceHomeId) && HasLocation(locations, d.destinationLocationId)
  }

  /** No row refers to a home id that is not in the table. */
  lemma NoRowsFromAbsentHome(distances: seq<Distance>, homes: seq<Home>, locations: seq<Location>, homeId: nat)
    requires RowsReferToEntities(distances, homes, locations) && !HasHome(homes, homeId)
    ensures RowsFrom(distances, homeId) == [] && RowsNotFrom(distances, homeId) == distances
  {
    FilterKeepsNone(distances, FromHome(homeId));
    FilterKeepsAll(distances, NotFromHome(homeId));
  }

  /** No row refers to a location id that is not in the table. */
  lemma NoRowsToAbsentLocation(distances: seq<Distance>, homes: seq<Home>, locations: seq<Location>, locationId: nat)
    requires RowsReferToEntities(distances, homes, locations) && !HasLocation(locations, locationId)
    ensures RowsTo(distances, locationId) == [] && RowsNotTo(distances, locationId) == distances
  {
    FilterKeepsNone(distances, ToLocation(locationId));
    FilterKeepsAll(distances, NotToLocation(locationId));
  }

  /** The database session: every table, plus the next primary key of each
      auto-increment column. */
  class Store {
    var addresses: seq<Address>
    var homes: seq<Home>
    var locations: seq<Location>
    var distances: seq<Distance>
    var nextAddressId: nat
    var nextHomeId: nat
    var nextLocationId: nat

    /** Primary keys are unique and below their counters, every home and
        location has its address, and every distance row refers to an existing
        home and location (the foreign keys the delete cascades keep). */
    ghost predicate Valid()
      reads this
    {
      && EntitiesValid(addresses, homes, locations, nextAddressId, nextHomeId, nextLocationId)
      && RowsReferToEntities(distances, homes, locations)
    }

    constructor ()
      ensures Valid()
      ensures addresses == [] && homes == [] && locations == [] && distances == []
    {
      addresses, homes, locations, distances := [], [], [], [];
      nextAddressId, nextHomeId, nextLocationId := 1, 1, 1;
    }
  }
}
