/** Address creation and update, with coordinate resolution through the
    geocoder (backend/app/crud/address.py, and the older app/crud/address.py). */
module Addresses {
  import opened Wrappers
  import opened Seqs
  import opened Geo
  import opened Db

  /** The backend's address input: the four text fields and, optionally,
      coordinates the caller already knows. */
  datatype AddressInput = AddressInput(text: AddressText, latitude: Option<real>, longitude: Option<real>)

  /** `get_coordinates`' query: street, city, postal code and country joined with ", ". */
  function Query(t: AddressText): (q: string)
    ensures |q| == |t.street| + |t.city| + |t.postalCode| + |t.country| + 6
    ensures q[..|t.street|] == t.street && q[|q| - |t.country|..] == t.country
  {
    t.street + ", " + t.city + ", " + t.postalCode + ", " + t.country
  }

  /** Cuts a string at every ", ", the inverse of the join above. */
  function Split(s: string): (parts: seq<string>)
    ensures |parts| >= 1
    decreases |s|
  {
    if |s| >= 2 && s[0] == ',' && s[1] == ' ' then [""] + Split(s[2..])
    else if s == [] then [""]
    else
      var rest := Split(s[1..]);
      [[s[0]] + rest[0]] + rest[1..]
  }

  predicate NoSeparator(p: string)
  {
    forall i :: 0 <= i < |p| - 1 ==> !(p[i] == ',' && p[i + 1] == ' ')
  }

  lemma {:induction false} SplitPlain(p: string)
    requires NoSeparator(p)
    ensures Split(p) == [p]
    decreases |p|
  {
    if p != [] {
      assert NoSeparator(p[1..]) by {
        forall i | 0 <= i < |p[1..]| - 1 ensures !(p[1..][i] == ',' && p[1..][i + 1] == ' ') {
          assert p[1..][i] == p[i + 1] && p[1..][i + 1] == p[i + 2];
        }
      }
      SplitPlain(p[1..]);
      assert [p[0]] + p[1..] == p;
    }
  }

  lemma {:induction false} SplitAfterPart(p: string, rest: string)
    requires NoSeparator(p)
    ensures Split(p + ", " + rest) == [p] + Split(rest)
    decreases |p|
  {
    var s := p + ", " + rest;
    if p == [] {
      assert s == ", " + rest;
      assert s[2..] == rest;
    } else {
      assert s[0] == p[0];
      assert s[1..] == p[1..] + ", " + rest;
      assert !(s[0] == ',' && s[1] == ' ') by {
        if |p| >= 2 { assert s[1] == p[1]; } else { assert s[1] == ','; }
      }
      assert NoSeparator(p[1..]) by {
        forall i | 0 <= i < |p[1..]| - 1 ensures !(p[1..][i] == ',' && p[1..][i + 1] == ' ') {
          assert p[1..][i] == p[i + 1] && p[1..][i + 1] == p[i + 2];
        }
      }
      SplitAfterPart(p[1..], rest);
      assert [p[0]] + p[1..] == p;
    }
  }

  lemma SplitJoined(a: string, b: string, c: string, d: string)
    requires NoSeparator(a) && NoSeparator(b) && NoSeparator(c) && NoSeparator(d)
    ensures Split(a + ", " + b + ", " + c + ", " + d) == [a, b, c, d]
  {
    var tail2 := c + ", " + d;
    var tail1 := b + ", " + tail2;
    assert a + ", " + b + ", " + c + ", " + d == a + ", " + tail1;
    SplitPlain(d);
    SplitAfterPart(c, d);
    assert Split(tail2) == [c, d];
    SplitAfterPart(b, tail2);
    assert Split(tail1) == [b, c, d];
    SplitAfterPart(a, tail1);
  }

  /** When no field contains ", ", the four fields can be read back from the
      query, so distinct addresses give distinct queries. */
  lemma QueryRoundTrip(t: AddressText)
    requires NoSeparator(t.street) && NoSeparator(t.city) && NoSeparator(t.postalCode) && NoSeparator(t.country)
    ensures Split(Query(t)) == [t.street, t.city, t.postalCode, t.country]
  {
    SplitJoined(t.street, t.city, t.postalCode, t.country);
  }

  lemma QueryInjective(t: AddressText, u: AddressText)
    requires NoSeparator(t.street) && NoSeparator(t.city) && NoSeparator(t.postalCode) && NoSeparator(t.country)
    requires NoSeparator(u.street) && NoSeparator(u.city) && NoSeparator(u.postalCode) && NoSeparator(u.country)
    requires Query(t) == Query(u)
    ensures t == u
  {
    QueryRoundTrip(t);
    QueryRoundTrip(u);
  }

  /** The row `create_address` inserts under primary key `id`, or the
      geocoder's failure. */
  function NewAddress(id: nat, input: AddressInput, geo: Provider): (r: Result<Address>)
    ensures r.Ok? ==> r.value.id == id && r.value.text == input.text
    ensures input.latitude.Some? && input.longitude.Some? ==>
      r.Ok? && r.value.latitude == input.latitude.value && r.value.longitude == input.longitude.value
    ensures (input.latitude.None? || input.longitude.None?) ==>
      && (r.Ok? <==> geo.geocode(Query(input.text)).Ok?)
      && (r.Ok? ==> r.value.longitude == geo.geocode(Query(input.text)).value.0
                    && r.value.latitude == geo.geocode(Query(input.text)).value.1)
      && (r.Err? ==> r.failure == geo.geocode(Query(input.text)).failure)
  {
    if input.latitude.None? || input.longitude.None? then
      match geo.geocode(Query(input.text))
      case Ok(c) => Ok(Address(id, input.text, c.1, c.0))
      case Err(f) => Err(f)
    else Ok(Address(id, input.text, input.latitude.value, input.longitude.value))
  }

  /** `create_address`: coordinates given in full are stored as given and the
      geocoder is not consulted; otherwise the geocoder's pair is stored,
      longitude first; a geocoder failure persists nothing. */
  method CreateAddress(db: Store, input: AddressInput, geo: Provider) returns (r: Result<Address>)
    requires db.Valid()
    modifies db
    ensures db.Valid()
    ensures r == NewAddress(old(db.nextAddressId), input, geo)
    ensures input.latitude.Some? && input.longitude.Some? ==>
      r == Ok(Address(old(db.nextAddressId), input.text, input.latitude.value, input.longitude.value))
    ensures (input.latitude.None? || input.longitude.None?) ==>
      match geo.geocode(Query(input.text))
      case Ok(c) => r.Ok? && r.value.longitude == c.0 && r.value.latitude == c.1
      case Err(f) => r == Err(f)
    ensures r.Ok? ==> db.addresses == old(db.addresses) + [r.value] && db.nextAddressId == old(db.nextAddressId) + 1
    ensures r.Err? ==> db.addresses == old(db.addresses) && db.nextAddressId == old(db.nextAddressId)
    ensures db.homes == old(db.homes) && db.locations == old(db.locations) && db.distances == old(db.distances)
    ensures db.nextHomeId == old(db.nextHomeId) && db.nextLocationId == old(db.nextLocationId)
  {
    var latitude, longitude := input.latitude, input.longitude;
    if input.latitude.None? || input.longitude.None? {
      var resolved := geo.geocode(Query(input.text));
      if resolved.Err? {
        return Err(resolved.failure);
      }
      longitude, latitude := Some(resolved.value.0), Some(resolved.value.1);
    }
    r := Ok(Address(db.nextAddressId, input.text, latitude.value, longitude.value));
    Insert(db, r.value);
  }

  /** `db.add` and commit of a new address row under the next primary key. */
  method Insert(db: Store, a: Address)
    requires db.Valid() && a.id == db.nextAddressId
    modifies db
    ensures db.Valid()
    ensures db.addresses == old(db.addresses) + [a] && db.nextAddressId == old(db.nextAddressId) + 1
    ensures db.homes == old(db.homes) && db.locations == old(db.locations) && db.distances == old(db.distances)
    ensures db.nextHomeId == old(db.nextHomeId) && db.nextLocationId == old(db.nextLocationId)
  {
    var before := db.addresses;
    db.addresses := db.addresses + [a];
    db.nextAddressId := db.nextAddressId + 1;
    forall id | HasAddress(before, id) ensures HasAddress(db.addresses, id) {
      var i := AddressIndex(before, id).value;
      assert db.addresses[i] == before[i];
    }
  }

  /** An address row while it is being edited: until the commit its coordinate
      attributes may hold None. */
  datatype Edited = Edited(id: nat, text: AddressText, latitude: Option<real>, longitude: Option<real>)

  /** The commit: the NOT NULL coordinate columns reject a None. */
  function Commit(e: Edited): Result<Address>
  {
    if e.latitude.Some? && e.longitude.Some? then Ok(Address(e.id, e.text, e.latitude.value, e.longitude.value))
    else Err(Other)
  }

  /** Replaces the row at index `i` by one with the same primary key. */
  method Replace(db: Store, i: nat, a: Address)
    requires db.Valid() && i < |db.addresses| && db.addresses[i].id == a.id
    modifies db
    ensures db.Valid()
    ensures db.addresses == old(db.addresses)[i := a] && db.nextAddressId == old(db.nextAddressId)
    ensures db.homes == old(db.homes) && db.locations == old(db.locations) && db.distances == old(db.distances)
    ensures db.nextHomeId == old(db.nextHomeId) && db.nextLocationId == old(db.nextLocationId)
  {
    var before := db.addresses;
    db.addresses := db.addresses[i := a];
    forall id | HasAddress(before, id) ensures HasAddress(db.addresses, id) {
      var j := AddressIndex(before, id).value;
      assert db.addresses[j].id == before[j].id;
    }
    assert forall j :: 0 <= j < |before| ==> db.addresses[j].id == before[j].id;
  }

  /** The row `update_address` leaves under `existingAddressId`, or the
      exception it raises. */
  function AddressUpdate(addresses: seq<Address>, input: AddressInput, existingAddressId: nat, geo: Provider)
    : (r: Result<Address>)
    ensures geo.geocode(Query(input.text)).Err? ==> r == Err(geo.geocode(Query(input.text)).failure)
    ensures r.Ok? <==>
      geo.geocode(Query(input.text)).Ok? && HasAddress(addresses, existingAddressId)
      && input.latitude.Some? && input.longitude.Some?
    ensures r.Ok? ==>
      r.value == Address(existingAddressId, input.text, input.latitude.value, input.longitude.value)
    ensures geo.geocode(Query(input.text)).Ok? && r.Err? ==> r.failure == Other
  {
    match geo.geocode(Query(input.text))
    case Err(f) => Err(f)
    case Ok(c) =>
      match AddressIndex(addresses, existingAddressId)
      case None => Err(Other)
      case Some(i) =>
        var resolved := Edited(addresses[i].id, addresses[i].text, Some(c.1), Some(c.0));
        Commit(resolved.(text := input.text, latitude := input.latitude, longitude := input.longitude))
  }

  /** `update_address`: the geocoder is always called; its coordinates are
      written first and then every input field is copied over them, so the
      stored coordinates are the input's and a missing one fails the commit.
      A geocoder failure, an unknown address id or a failed commit persists
      nothing; otherwise only the address with the given id changes. */
  method UpdateAddress(db: Store, input: AddressInput, existingAddressId: nat, geo: Provider)
    returns (r: Result<Address>)
    requires db.Valid()
    modifies db
    ensures db.Valid()
    ensures r == AddressUpdate(old(db.addresses), input, existingAddressId, geo)
    ensures geo.geocode(Query(input.text)).Err? ==> r == Err(geo.geocode(Query(input.text)).failure)
    ensures r.Ok? <==> geo.geocode(Query(input.text)).Ok? && HasAddress(old(db.addresses), existingAddressId)
                       && input.latitude.Some? && input.longitude.Some?
    ensures r.Ok? ==>
      && r.value == Address(existingAddressId, input.text, input.latitude.value, input.longitude.value)
      && db.addresses == old(db.addresses)[AddressIndex(old(db.addresses), existingAddressId).value := r.value]
    ensures r.Err? ==> db.addresses == old(db.addresses)
    ensures db.homes == old(db.homes) && db.locations == old(db.locations) && db.distances == old(db.distances)
    ensures db.nextAddressId == old(db.nextAddressId)
    ensures db.nextHomeId == old(db.nextHomeId) && db.nextLocationId == old(db.nextLocationId)
  {
    var resolved := geo.geocode(Query(input.text));
    if resolved.Err? {
      return Err(resolved.failure);
    }
    var (longitude, latitude) := resolved.value;
    var index := AddressIndex(db.addresses, existingAddressId);
    if index.None? {
      // the query's `.first()` gave None and the attribute write raises
      return Err(Other);
    }
    var row := db.addresses[index.value];
    var edited := Edited(row.id, row.text, Some(latitude), Some(longitude));
    edited := edited.(text := input.text, latitude := input.latitude, longitude := input.longitude);
    r := Commit(edited);
    if r.Ok? {
      Replace(db, index.value, r.value);
    }
  }

  /** The older `create_address`: always geocodes and stores the resolved
      latitude and longitude; a geocoder failure persists nothing. */
  method LegacyCreateAddress(db: Store, text: AddressText, geo: Provider) returns (r: Result<Address>)
    requires db.Valid()
    modifies db
    ensures db.Valid()
    ensures match geo.geocode(Query(text))
      case Ok(c) => r == Ok(Address(old(db.nextAddressId), text, c.1, c.0))
      case Err(f) => r == Err(f)
    ensures r.Ok? ==> db.addresses == old(db.addresses) + [r.value] && db.nextAddressId == old(db.nextAddressId) + 1
    ensures r.Err? ==> db.addresses == old(db.addresses) && db.nextAddressId == old(db.nextAddressId)
    ensures db.homes == old(db.homes) && db.locations == old(db.locations) && db.distances == old(db.distances)
    ensures db.nextHomeId == old(db.nextHomeId) && db.nextLocationId == old(db.nextLocationId)
  {
    var resolved := geo.geocode(Query(text));
    if resolved.Err? {
      return Err(resolved.failure);
    }
    var (longitude, latitude) := resolved.value;
    r := Ok(Address(db.nextAddressId, text, latitude, longitude));
    Insert(db, r.value);
  }

  /** The older `update_address`: always geocodes, then copies the four text
      fields; its input carries no coordinates, so the resolved ones stay.
      A geocoder failure or an unknown address id persists nothing. */
  method LegacyUpdateAddress(db: Store, text: AddressText, existingAddressId: nat, geo: Provider)
    returns (r: Result<Address>)
    requires db.Valid()
    modifies db
    ensures db.Valid()
    ensures geo.geocode(Query(text)).Err? ==> r == Err(geo.geocode(Query(text)).failure)
    ensures r.Ok? <==> geo.geocode(Query(text)).Ok? && HasAddress(old(db.addresses), existingAddressId)
    ensures r.Ok? ==>
      var c := geo.geocode(Query(text)).value;
      && r.value == Address(existingAddressId, text, c.1, c.0)
      && db.addresses == old(db.addresses)[AddressIndex(old(db.addresses), existingAddressId).value := r.value]
    ensures r.Err? ==> db.addresses == old(db.addresses)
    ensures db.homes == old(db.homes) && db.locations == old(db.locations) && db.distances == old(db.distances)
    ensures db.nextAddressId == old(db.nextAddressId)
    ensures db.nextHomeId == old(db.nextHomeId) && db.nextLocationId == old(db.nextLocationId)
  {
    var resolved := geo.geocode(Query(text));
    if resolved.Err? {
      return Err(resolved.failure);
    }
    var (longitude, latitude) := resolved.value;
    var index := AddressIndex(db.addresses, existingAddressId);
    if index.None? {
      return Err(Other);
    }
    var row := db.addresses[index.value];
    r := Ok(row.(longitude := longitude, latitude := latitude, text := text));
    Replace(db, index.value, r.value);
  }
}
