/** The earlier home lifecycle (app/crud/home.py): the address is always
    geocoded, and the distance pass aborts on the first provider failure of
    any kind. Its listing and per-home distance reads are the same queries as
    `Homes.GetHomes` and `Homes.GetDistances`. */
module LegacyHomes {
  import opened Wrappers
  import opened Seqs
  import opened Geo
  import opened Db
  import opened Matrix
  import opened Addresses
  import opened Distances
  import Homes

  datatype LegacyHomeInput = LegacyHomeInput(name: string, address: AddressText)

  /** `create_home`: geocode and store the address, store the home, then
      materialise its distances with the strict pass. A failure after the home
      is committed propagates but leaves the address, the home and the rows
      written before it. */
  method CreateHome(db: Store, input: LegacyHomeInput, userId: nat, geo: Provider) returns (r: Result<Home>)
    requires db.Valid()
    modifies db
    ensures db.Valid()
    ensures geo.geocode(Query(input.address)).Err? ==>
      && r == Err(geo.geocode(Query(input.address)).failure)
      && db.addresses == old(db.addresses) && db.homes == old(db.homes)
      && db.locations == old(db.locations) && db.distances == old(db.distances)
      && db.nextAddressId == old(db.nextAddressId) && db.nextHomeId == old(db.nextHomeId)
    ensures geo.geocode(Query(input.address)).Ok? ==>
      db.nextAddressId == old(db.nextAddressId) + 1 && db.nextHomeId == old(db.nextHomeId) + 1
    ensures db.nextLocationId == old(db.nextLocationId)
    ensures geo.geocode(Query(input.address)).Ok? ==>
      var c := geo.geocode(Query(input.address)).value;
      var home := Home(old(db.nextHomeId), input.name, old(db.nextAddressId), userId);
      && db.addresses == old(db.addresses) + [Address(old(db.nextAddressId), input.address, c.1, c.0)]
      && db.homes == old(db.homes) + [home]
      && db.locations == old(db.locations)
      && HasAddress(db.addresses, home.addressId)
      && var pass := HomePass(db.addresses, db.locations, home, geo, AbortOnAny);
         && db.distances == old(db.distances) + pass.rows
         && RowsFrom(db.distances, home.id) == pass.rows
         && r == if pass.outcome == Completed then Ok(home) else Err(pass.outcome.failure)
  {
    var address := LegacyCreateAddress(db, input.address, geo);
    if address.Err? {
      return Err(address.failure);
    }
    FoundAt(db.addresses, (a: Address) => a.id, address.value.id, |db.addresses| - 1);
    var home := Home(db.nextHomeId, input.name, address.value.id, userId);
    assert !HasHome(db.homes, home.id);
    NoRowsFromAbsentHome(db.distances, db.homes, db.locations, home.id);
    Homes.InsertHome(db, home);
    ghost var before := db.distances;
    var outcome := CreateHomeDistances(db, home, geo, AbortOnAny);
    r := if outcome == Completed then Ok(home) else Err(outcome.failure);
    var pass := HomePass(db.addresses, db.locations, home, geo, AbortOnAny);
    HomePassRows(HomeEndpoint(home, db.addresses), LocationEndpoints(db.locations, db.addresses), geo, AbortOnAny);
    FilterAppend(before, pass.rows, FromHome(home.id));
    FilterKeepsAll(pass.rows, FromHome(home.id));
  }

  /** `delete_home`: a placeholder that takes nothing and does nothing; `db`
      only names the state it leaves alone, so the method may not modify it. */
  method DeleteHome(db: Store)
    ensures unchanged(db)
  {
  }
}
