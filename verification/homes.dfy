/** The home lifecycle (backend/app/crud/home.py): reads, creation with its
    address and distances, update with recompute, and deletion. */
module Homes {
  import opened Wrappers
  import opened Seqs
  import opened Geo
  import opened Db
  import opened Matrix
  import opened Addresses
  import opened Distances

  datatype HomeInput = HomeInput(name: string, address: AddressInput)

  function HomeKey(): Home -> nat { (h: Home) => h.id }

  /** `get_homes`: at most `limit` homes, starting at offset `skip`, in table order. */
  function GetHomes(db: Store, skip: nat, limit: nat): (r: seq<Home>)
    reads db
    ensures |r| == if skip < |db.homes| then Min(limit, |db.homes| - skip) else 0
    ensures forall i :: 0 <= i < |r| ==> r[i] == db.homes[skip + i]
  {
    Page(db.homes, skip, limit)
  }

  /** `get_home`: the home with the given id, or None. */
  function GetHome(db: Store, homeId: nat): (r: Option<Home>)
    reads db
    ensures r.Some? ==> r.value in db.homes && r.value.id == homeId
    ensures r.None? <==> forall h :: h in db.homes ==> h.id != homeId
  {
    match HomeIndex(db.homes, homeId)
    case Some(i) => Some(db.homes[i])
    case None => None
  }

  /** `get_distances`: None for a missing home; otherwise the home's
      collection of rows, which may be empty. */
  function GetDistances(db: Store, homeId: nat): (r: Option<seq<Distance>>)
    reads db
    ensures r.None? <==> forall h :: h in db.homes ==> h.id != homeId
    ensures r.Some? ==> forall d :: d in r.value <==> d in db.distances && d.sourceHomeId == homeId
    ensures r.Some? ==> forall d :: multiset(r.value)[d] == if d.sourceHomeId == homeId then multiset(db.distances)[d] else 0
  {
    FilterCount(db.distances, FromHome(homeId));
    if GetHome(db, homeId).Some? then Some(RowsFrom(db.distances, homeId)) else None
  }

  /** `db.add` and commit of a new home under the next primary key. */
  method InsertHome(db: Store, home: Home)
    requires db.Valid() && home.id == db.nextHomeId && HasAddress(db.addresses, home.addressId)
    modifies db
    ensures db.Valid()
    ensures db.homes == old(db.homes) + [home] && db.nextHomeId == old(db.nextHomeId) + 1
    ensures db.addresses == old(db.addresses) && db.locations == old(db.locations) && db.distances == old(db.distances)
    ensures db.nextAddressId == old(db.nextAddressId) && db.nextLocationId == old(db.nextLocationId)
  {
    var before := db.homes;
    db.homes := db.homes + [home];
    db.nextHomeId := db.nextHomeId + 1;
    forall d | d in db.distances ensures HasHome(db.homes, d.sourceHomeId) {
      FindAfterAppend(before, [home], HomeKey(), d.sourceHomeId);
    }
  }

  /** `create_home`: create the address, then the home referring to it and to
      its creator, then materialise its distances with the tolerant pass.
      Nothing is written when the address fails; once the home is committed a
      failing pass leaves it, its address and the rows so far in place. */
  method CreateHome(db: Store, input: HomeInput, userId: nat, geo: Provider) returns (r: Result<Home>)
    requires db.Valid()
    modifies db
    ensures db.Valid()
    ensures NewAddress(old(db.nextAddressId), input.address, geo).Err? ==>
      && r == Err(NewAddress(old(db.nextAddressId), input.address, geo).failure)
      && db.addresses == old(db.addresses) && db.homes == old(db.homes)
      && db.locations == old(db.locations) && db.distances == old(db.distances)
      && db.nextAddressId == old(db.nextAddressId) && db.nextHomeId == old(db.nextHomeId)
    ensures NewAddress(old(db.nextAddressId), input.address, geo).Ok? ==>
      db.nextAddressId == old(db.nextAddressId) + 1 && db.nextHomeId == old(db.nextHomeId) + 1
    ensures db.nextLocationId == old(db.nextLocationId)
    ensures NewAddress(old(db.nextAddressId), input.address, geo).Ok? ==>
      var home := Home(old(db.nextHomeId), input.name, old(db.nextAddressId), userId);
      && db.addresses == old(db.addresses) + [NewAddress(old(db.nextAddressId), input.address, geo).value]
      && db.homes == old(db.homes) + [home]
      && db.locations == old(db.locations)
      && HasAddress(db.addresses, home.addressId)
      && var pass := HomePass(db.addresses, db.locations, home, geo, SkipNotFound);
         && db.distances == old(db.distances) + pass.rows
         && RowsFrom(db.distances, home.id) == pass.rows
         && r == if pass.outcome == Completed then Ok(home) else Err(pass.outcome.failure)
  {
    var address := CreateAddress(db, input.address, geo);
    if address.Err? {
      return Err(address.failure);
    }
    FoundAt(db.addresses, (a: Address) => a.id, address.value.id, |db.addresses| - 1);
    var home := Home(db.nextHomeId, input.name, address.value.id, userId);
    assert !HasHome(db.homes, home.id);
    NoRowsFromAbsentHome(db.distances, db.homes, db.locations, home.id);
    InsertHome(db, home);
    ghost var before := db.distances;
    var outcome := CreateHomeDistances(db, home, geo, SkipNotFound);
    r := if outcome == Completed then Ok(home) else Err(outcome.failure);
    var pass := HomePass(db.addresses, db.locations, home, geo, SkipNotFound);
    HomePassRows(HomeEndpoint(home, db.addresses), LocationEndpoints(db.locations, db.addresses), geo, SkipNotFound);
    FilterAppend(before, pass.rows, FromHome(home.id));
    FilterKeepsAll(pass.rows, FromHome(home.id));
  }

  /** Replaces the home at index `i` by one with the same primary key. */
  method ReplaceHome(db: Store, i: nat, home: Home)
    requires db.Valid() && i < |db.homes| && db.homes[i].id == home.id && HasAddress(db.addresses, home.addressId)
    modifies db
    ensures db.Valid()
    ensures db.homes == old(db.homes)[i := home]
    ensures db.addresses == old(db.addresses) && db.locations == old(db.locations) && db.distances == old(db.distances)
    ensures db.nextAddressId == old(db.nextAddressId) && db.nextHomeId == old(db.nextHomeId)
    ensures db.nextLocationId == old(db.nextLocationId)
  {
    var before := db.homes;
    db.homes := db.homes[i := home];
    forall d | d in db.distances ensures HasHome(db.homes, d.sourceHomeId) {
      FindAfterReplace(before, i, home, HomeKey(), d.sourceHomeId);
    }
    assert forall j :: 0 <= j < |before| ==> db.homes[j].id == before[j].id;
  }

  /** `update_home`: overwrite the home's own fields, update the address with
      id `addressId`, then recompute the home's distances. A missing home
      skips the update but still reaches the recompute, which fails on the
      absent object; an address failure persists nothing (the field changes
      were not yet committed). */
  method UpdateHome(db: Store, input: HomeInput, homeId: nat, addressId: nat, geo: Provider) returns (r: Result<Home>)
    requires db.Valid()
    modifies db
    ensures db.Valid()
    ensures db.nextAddressId == old(db.nextAddressId) && db.nextHomeId == old(db.nextHomeId)
    ensures db.nextLocationId == old(db.nextLocationId)
    ensures var update := AddressUpdate(old(db.addresses), input.address, addressId, geo);
      (!HasHome(old(db.homes), homeId) || update.Err?) ==>
        && r == Err(if HasHome(old(db.homes), homeId) then update.failure else Other)
        && db.addresses == old(db.addresses) && db.homes == old(db.homes)
        && db.locations == old(db.locations) && db.distances == old(db.distances)
    ensures var update := AddressUpdate(old(db.addresses), input.address, addressId, geo);
      HasHome(old(db.homes), homeId) && update.Ok? ==>
        var i := HomeIndex(old(db.homes), homeId).value;
        var home := old(db.homes)[i].(name := input.name);
        && db.addresses == old(db.addresses)[AddressIndex(old(db.addresses), addressId).value := update.value]
        && db.homes == old(db.homes)[i := home]
        && db.locations == old(db.locations)
        && HasAddress(db.addresses, home.addressId)
        && var pass := HomePass(db.addresses, db.locations, home, geo, SkipNotFound);
           && db.distances == RowsNotFrom(old(db.distances), homeId) + pass.rows
           && RowsFrom(db.distances, homeId) == pass.rows
           && r == if pass.outcome == Completed then Ok(home) else Err(pass.outcome.failure)
  {
    var index := HomeIndex(db.homes, homeId);
    if index.None? {
      return Err(Other);
    }
    var i := index.value;
    var home := db.homes[i].(name := input.name);
    var address := UpdateAddress(db, input.address, addressId, geo);
    if address.Err? {
      return Err(address.failure);
    }
    ReplaceHome(db, i, home);
    assert db.homes[i] == home;
    var outcome := UpdateHomeDistances(db, home, geo);
    r := if outcome == Completed then Ok(home) else Err(outcome.failure);
  }

  /** Removing the home at index `i` and every row from it keeps the tables valid. */
  lemma RemovedHomeValid(addresses: seq<Address>, homes: seq<Home>, locations: seq<Location>, distances: seq<Distance>,
                         nextAddressId: nat, nextHomeId: nat, nextLocationId: nat, i: nat)
    requires EntitiesValid(addresses, homes, locations, nextAddressId, nextHomeId, nextLocationId)
    requires RowsReferToEntities(distances, homes, locations)
    requires i < |homes|
    ensures EntitiesValid(addresses, Without(homes, i), locations, nextAddressId, nextHomeId, nextLocationId)
    ensures RowsReferToEntities(RowsNotFrom(distances, homes[i].id), Without(homes, i), locations)
    ensures forall h :: h in Without(homes, i) <==> h in homes && h.id != homes[i].id
  {
    RemoveAt(homes, i, HomeKey());
    forall d | d in RowsNotFrom(distances, homes[i].id) ensures HasHome(Without(homes, i), d.sourceHomeId) {
      FindAfterRemove(homes, i, HomeKey(), d.sourceHomeId);
    }
  }

  /** `delete_home`: remove the home if it exists, with every row whose source
      it is (the delete-orphan cascade); otherwise change nothing. The address
      row stays. */
  method DeleteHome(db: Store, homeId: nat)
    requires db.Valid()
    modifies db
    ensures db.Valid()
    ensures db.addresses == old(db.addresses) && db.locations == old(db.locations)
    ensures db.distances == RowsNotFrom(old(db.distances), homeId)
    ensures forall h :: h in db.homes <==> h in old(db.homes) && h.id != homeId
    ensures HasHome(old(db.homes), homeId) ==> db.homes == Without(old(db.homes), HomeIndex(old(db.homes), homeId).value)
    ensures db.nextAddressId == old(db.nextAddressId) && db.nextHomeId == old(db.nextHomeId)
    ensures db.nextLocationId == old(db.nextLocationId)
    ensures !HasHome(old(db.homes), homeId) ==> db.homes == old(db.homes) && db.distances == old(db.distances)
  {
    var index := HomeIndex(db.homes, homeId);
    if index.None? {
      NoRowsFromAbsentHome(db.distances, db.homes, db.locations, homeId);
      return;
    }
    RemoveHomeAt(db, index.value);
  }

  /** The found branch of `delete_home`: the home at index `i` and the rows
      from it go, nothing else changes. */
  method RemoveHomeAt(db: Store, i: nat)
    requires db.Valid() && i < |db.homes|
    modifies db
    ensures db.Valid()
    ensures db.homes == Without(old(db.homes), i)
    ensures db.distances == RowsNotFrom(old(db.distances), old(db.homes[i].id))
    ensures forall h :: h in db.homes <==> h in old(db.homes) && h.id != old(db.homes[i].id)
    ensures db.addresses == old(db.addresses) && db.locations == old(db.locations)
    ensures db.nextAddressId == old(db.nextAddressId) && db.nextHomeId == old(db.nextHomeId)
    ensures db.nextLocationId == old(db.nextLocationId)
  {
    RemovedHomeValid(db.addresses, db.homes, db.locations, db.distances,
                     db.nextAddressId, db.nextHomeId, db.nextLocationId, i);
    db.homes, db.distances := Without(db.homes, i), RowsNotFrom(db.distances, db.homes[i].id);
  }
}
