# Distance matrix maintenance of location-locator-backend

The backend stores homes and locations, each with a postal address, and keeps
a table of walking times in minutes from every home to every location. An
external provider turns an address into coordinates and a pair of coordinates
into a route duration. This model covers the CRUD code that keeps that table
in step with the entities:

- **the distance passes**: `create_home_distances` and
  `create_location_distances` look up every counterpart and insert and commit
  one row per answer. `update_home_distances` and `update_location_distances`
  delete a home's or location's rows and then run the pass again.
- **addresses**: `create_address` geocodes only when a coordinate is missing.
  `update_address` always geocodes and then overwrites the row with the
  request's fields.
- **the lifecycles**: homes (`get_homes`, `get_home`, `create_home`,
  `update_home`, `get_distances`, `delete_home`) and locations
  (`get_location`, `get_locations`, `create_location`, `update_location`,
  `delete_location`).
- **the earlier `app/` copy**: its address operations always geocode, and its
  distance pass aborts on the first provider failure of any kind.

Modules:

- `Wrappers`: `Option`, `Result`, and `Failure`. `Failure` is `NotFound` (the
  provider's `ValueError`) or `Other` (any other exception).
- `Seqs`: first-match lookup, filtering and paging over sequences.
- `Geo`: the provider, an oracle of two total functions, `geocode` and
  `route`.
- `Db`: the rows, and `Store`, the session. `Store` is a class whose table
  fields the operations reassign. `Store.Valid()` is the state invariant:
  - primary keys are unique and below their counters;
  - every home and location has its address;
  - every distance row refers to an existing home and location.
- `Matrix`: the specification of one distance pass.
  - `Scan` is what the loop does.
  - `Resolved`, the rows of the legs that answered, is an independent
    reference.
  - `StopIndex` is the first leg whose failure the policy does not catch.
  - The policy is `SkipNotFound` (backend: `except ValueError`) or
    `AbortOnAny` (the earlier code, which has no `try`).
- `Addresses`, `Distances`, `Homes`, `Locations`, `LegacyHomes`: one module
  per CRUD file. Each operation is a module-level method that takes the
  session as `db: Store` and may modify it. Its `ensures` give every table
  and every id counter after the call, in terms of the specification
  functions.

A raised exception is an `Err` result. The state it leaves is the state
committed before the raise.

The location CRUD file imports `update_location_distances`, which only the
backend distance module defines. The file can therefore run only as the
backend's `crud/locations.py` (backend/app/crud/__init__.py:2-3). There, its
`.address` import is backend/app/crud/address.py. It is modelled with the
backend address operations and the tolerant pass.

`get_homes` and `get_distances` in `app/crud/home.py` are the same queries as
in the backend. `Homes.GetHomes` and `Homes.GetDistances` model both copies.

Where the documentation and the code disagree, the code is followed:

- The documentation says deleting a home or a location also deletes its
  address. The only cascade on deleting a home or a location is `delete-orphan` on
  its distance relationship (backend/app/models/home.py:18,
  backend/app/models/location.py:23-25), so the model keeps the address row.
- The documentation describes at most one row per pair. The distance model
  app/models/distance.py:8-17 has no unique constraint, and neither pass
  checks for an existing row (app/crud/distances.py:39-49,
  backend/app/crud/distances.py:41-59), so a second pass duplicates rows
  (`Distances.SecondPassDuplicates`).
- The documentation says a `NotFound` during creation never escapes. That
  holds for the backend code. The earlier code lets it escape and leaves the
  rows committed so far (`Matrix.StrictPassStopsAtFirstFailure`).
- In the backend `update_address`, the resolved coordinates are written first
  and then overwritten by the request's own `latitude`/`longitude` keys. The
  stored coordinates are therefore the request's. A request without them
  fails the NOT NULL columns at commit, so nothing is persisted.

## Model

| member | source | states |
|---|---|---|
| Addresses.Query | backend/app/crud/address.py:14-19 | `get_coordinates`' query (the same f-string as app/crud/address.py:7-12): its length is the four parts' lengths plus three separators, it starts with the street and ends with the country |
| Addresses.NewAddress | backend/app/crud/address.py:27-36 | the row `create_address` builds carries the given id and text; with both coordinates given it stores them; otherwise it exists exactly when geocoding answers, and then holds the provider's longitude and latitude, and otherwise carries the provider's failure |
| Addresses.Insert | backend/app/crud/address.py:36-39 | the row is appended under the next id, that counter advances, nothing else changes and the store stays valid |
| Addresses.Replace | backend/app/crud/address.py:65-71 | the row at its index is replaced by one with the same id; nothing else changes and the store stays valid |
| Addresses.AddressUpdate | backend/app/crud/address.py:50-72 | a geocoding failure is the result; otherwise the update succeeds exactly when the address exists and the request carries both coordinates, and it yields the row with the same id, the request's text and the request's coordinates; any other failure is an `Other` exception |
| Addresses.QueryRoundTrip | backend/app/crud/address.py:14-19 | the geocoder query joins street, city, postal code and country with ", "; splitting it again gives back the four parts when none contains the separator |
| Addresses.QueryInjective | backend/app/crud/address.py:14-19 | two separator-free addresses with the same query are the same address |
| Addresses.CreateAddress | backend/app/crud/address.py:22-41 | with both coordinates given the row stores them and the geocoder result is irrelevant; with either missing the row stores the geocoded latitude and longitude (swapped from the provider's order), or the provider's failure is returned and nothing is stored; a stored row gets the next id and is appended |
| Addresses.UpdateAddress | backend/app/crud/address.py:44-74 | a geocoder failure is returned first; otherwise it succeeds exactly when the address exists and the request carries both coordinates; on success the row keeps its id, takes the request's text and coordinates, and replaces the old row in place; on failure no table changes |
| Addresses.LegacyCreateAddress | app/crud/address.py:15-30 | the address is always geocoded; success stores the text with the provider's coordinates under the next id; failure stores nothing |
| Addresses.LegacyUpdateAddress | app/crud/address.py:33-56 | always geocodes; succeeds exactly when geocoding answers and the address exists; the row then holds the request's text with the resolved coordinates, in place; failure changes nothing |
| Matrix.Scan | backend/app/crud/distances.py:44-59 | the loop of both passes, iteration by iteration: it writes no more rows than there are legs, and an aborted pass ends with a failure the policy does not catch |
| Matrix.StopIndex | backend/app/crud/distances.py:44-59 | the index of the first leg whose failure the policy does not catch (or the number of legs); every earlier leg answered or was caught |
| Matrix.ScanStopsAtFirstUncaughtFailure | backend/app/crud/distances.py:41-59 | a pass keeps exactly the reference rows of the legs before the first uncaught failure, and ends Aborted with that leg's failure, or Completed when there is none |
| Matrix.AbortIsFinal | backend/app/crud/distances.py:44-59 | once a prefix of the legs has aborted, the remaining legs change neither the rows nor the outcome |
| Matrix.TolerantPassCompletes | backend/app/crud/distances.py:41-59 | with the ValueError catch, a pass whose lookups raise only NotFound completes and keeps one row per answered leg, skipping the rest |
| Matrix.ResolvedMembership | backend/app/crud/distances.py:44-53 | a row is in the reference exactly when some leg answered with its minutes |
| Matrix.ResolvedAllFound | app/crud/distances.py:26-49 | when every lookup answers there is one row per leg, in leg order, with that leg's minutes |
| Matrix.StrictPassStopsAtFirstFailure | app/crud/distances.py:26-49 | without a catch, the committed rows are those of the leading legs that answered, in order; the pass aborts exactly when a leg failed, with that leg's failure |
| Matrix.PassRowsComeFromLegs | backend/app/crud/distances.py:44-53 | every row a pass writes carries minutes the provider returned for one of its legs |
| Matrix.HomePassRows | backend/app/crud/distances.py:9-59 | every row of a home's pass has the home as source and some location as destination, and carries the minutes of `get_distance_minutes` (here lines 9-17, in the earlier copy app/crud/distances.py:17-23): a route starting at the home's longitude and latitude and ending at that location's, the keyword arguments matched by name |
| Matrix.LocationPassRows | backend/app/crud/distances.py:9-38 | every row of a location's pass has the location as destination, some home as source, and the minutes of `get_distance_minutes` for that pair: a route starting at that home's longitude and latitude and ending at the location's, the keyword arguments matched by name |
| Matrix.ResolvedPairsDistinct | backend/app/crud/distances.py:41-59 | legs with distinct (home, location) pairs give rows with distinct pairs |
| Matrix.HomePassOnePerLocation | backend/app/crud/distances.py:41-59 | with distinct location ids, one pass writes at most one row per location |
| Matrix.LocationPassOnePerHome | backend/app/crud/distances.py:20-38 | with distinct home ids, one pass writes at most one row per home |
| Matrix.ResolvedIsEachHomeAlone | backend/app/crud/distances.py:20-59 | a location's reference rows equal the rows each home would get from its own lookup of that location, concatenated |
| Matrix.LocationPassIsEachHomesPass | backend/app/crud/distances.py:20-59 | symmetry: when no lookup raises anything but NotFound, a location's pass completes with the same rows, in home order, as looking up each home against that location separately |
| Matrix.ReachableAndUnreachable | backend/app/crud/distances.py:41-59 | a home at (0,0) with one location 12 minutes away and one unreachable: the tolerant pass completes with the single row (home, reachable, 12); the strict pass writes that row and then aborts with NotFound |
| Distances.HomePass | backend/app/crud/distances.py:41-59 | the pass over the stored locations, with addresses followed through the foreign keys: no more rows than locations, each from the home to one of the locations (one row per location when the ids are distinct is `Matrix.HomePassOnePerLocation`) |
| Distances.LocationPass | backend/app/crud/distances.py:20-38 | the pass over the stored homes: no more rows than homes, each from one of the homes to the location (one row per home when the ids are distinct is `Matrix.LocationPassOnePerHome`) |
| Distances.HomePassKeepsReferences | backend/app/crud/distances.py:41-59 | appending a stored home's pass rows keeps every row referring to an existing home and location |
| Distances.LocationPassKeepsReferences | backend/app/crud/distances.py:20-38 | the same for a stored location's pass |
| Distances.RunPass | backend/app/crud/distances.py:44-59 | the loop both passes share (also backend/app/crud/distances.py:23-38 and the earlier copy's loops): the table gains exactly the pass's rows for the given legs, in order, and the outcome is the pass's; no other table or counter changes |
| Distances.CreateHomeDistances | backend/app/crud/distances.py:41-59 | the table gains exactly the home's pass rows, in location order, and the outcome is the pass's; nothing else changes and the store stays valid; the earlier copy (app/crud/distances.py:39-49) is the same method under the AbortOnAny policy |
| Distances.CreateLocationDistances | backend/app/crud/distances.py:20-38 | the table gains exactly the location's pass rows, in home order, and the outcome is the pass's; nothing else changes; the earlier copy (app/crud/distances.py:26-36) is the same method under the AbortOnAny policy |
| Distances.ReplaceHomeRows | backend/app/crud/distances.py:62-70 | after deleting a home's rows and appending new ones from that home, the home's rows are exactly the new ones and every other row is as before |
| Distances.ReplaceLocationRows | backend/app/crud/distances.py:73-81 | the same for a location's rows |
| Distances.UpdateHomeDistances | backend/app/crud/distances.py:62-70 | the table becomes the other homes' rows followed by a fresh tolerant pass; the home's rows are exactly that pass's rows; the other homes' rows are unchanged |
| Distances.UpdateLocationDistances | backend/app/crud/distances.py:73-81 | the table becomes the other locations' rows followed by a fresh tolerant pass; the location's rows are exactly that pass's rows |
| Distances.RecomputeDropsFailedPair | backend/app/crud/distances.py:62-70 | a pair whose lookup fails during a recompute has no row afterwards, even if it had one before |
| Distances.SecondPassDuplicates | app/crud/distances.py:39-49 | for a home with no rows and distinct location ids, with every lookup answering, one pass leaves the row of each location among the home's rows exactly once and a second pass leaves it exactly twice |
| Homes.GetHomes | backend/app/crud/home.py:10-11 | the homes from offset skip, at most limit of them, in table order; none when skip is past the end |
| Homes.GetHome | backend/app/crud/home.py:14-15 | a stored home with that id, or None exactly when no home has it |
| Homes.GetDistances | backend/app/crud/home.py:62-64 | None exactly when the home is missing; otherwise the rows whose source is the home, each as many times as the table holds it (duplicates included), possibly none |
| Homes.InsertHome | backend/app/crud/home.py:29-34 | the home is appended under the next id and the store stays valid |
| Homes.CreateHome | backend/app/crud/home.py:19-39 | an address failure is returned and nothing is stored; otherwise the address is appended, then the home with the next id, the name, the address and the creator; the table gains its tolerant pass rows, which are then all of the home's rows; the result is the home, or the failure that stopped the pass, with everything so far kept; the address and home counters advance only when the address was stored |
| Homes.ReplaceHome | backend/app/crud/home.py:46-55 | the home at its index is replaced by one with the same id and the store stays valid |
| Homes.UpdateHome | backend/app/crud/home.py:42-58 | a missing home fails with nothing changed; an address update failure is returned with nothing changed; otherwise the address is replaced, the home takes the new name in place, and its rows are recomputed against the new coordinates; no counter changes |
| Homes.DeleteHome | backend/app/crud/home.py:67-73 | the home and every row from it are removed; the other homes stay in their order; its address stays; no counter changes; a missing id changes nothing |
| Homes.RemoveHomeAt | backend/app/crud/home.py:71-73 | the found home goes, the other homes keep their order, every row from it goes with it, the store stays consistent and nothing else changes |
| Locations.GetLocation | app/crud/locations.py:9-10 | a stored location with that id, or None exactly when no location has it |
| Locations.GetLocations | app/crud/locations.py:13-14 | the locations from offset skip, at most limit of them, in table order |
| Locations.InsertLocation | app/crud/locations.py:27-32 | the location is appended under the next id and the store stays valid |
| Locations.CreateLocation | app/crud/locations.py:17-36 | an address failure is returned and nothing is stored; otherwise the address, then the location with the request's fields, are appended; the table gains its tolerant pass rows, which are then all of the location's rows; the result is the location or the failure that stopped the pass; the address and location counters advance only when the address was stored |
| Locations.ReplaceLocation | app/crud/locations.py:43-52 | the location at its index is replaced by one with the same id and the store stays valid |
| Locations.UpdateLocation | app/crud/locations.py:39-56 | a missing location fails with nothing changed; an address update failure is returned with nothing changed; otherwise the address is replaced, every non-address field takes the request's value in place, and the location's rows are recomputed; no counter changes |
| Locations.DeleteLocation | app/crud/locations.py:59-65 | the location and every row to it are removed; the other locations stay in their order; its address stays; no counter changes; a missing id changes nothing |
| Locations.RemoveLocationAt | app/crud/locations.py:63-65 | the found location goes, the other locations keep their order, every row to it goes with it, the store stays consistent and nothing else changes |
| LegacyHomes.CreateHome | app/crud/home.py:14-34 | a geocoding failure is returned and nothing is stored; otherwise the geocoded address and the home are appended and the strict pass runs; its first failure is returned with the address, the home and the rows before it kept |
| LegacyHomes.DeleteHome | app/crud/home.py:43-44 | the placeholder changes nothing |

## Left out

- The HTTP client, its JSON extraction, API keys and retries are left out. The provider is two total functions. Only the split of its errors into `ValueError` (`NotFound`) and everything else (`Other`) is kept.
- The provider's duration is an integer number of minutes. How it is computed from a float is not modelled.
- Coordinates are `real`. Floating-point rounding is not modelled.
- The API routes, authentication and authorisation are left out. The creator's id is a parameter.
- The database engine is left out: timestamps, `db.refresh` and the lazy relationships. The distance relationships are the filters `RowsFrom` and `RowsTo`.
- The order of `.all()` is taken to be insertion order.
- Concurrency between requests is left out. Each operation runs alone on the store.
- Negative `skip` and `limit` are left out (`nat` parameters).
- The `dict` form of `update_address` (`sqlalchemy_object_to_dict`) is left out. No caller in this core passes one.
- The backend `AddressCreate` and `LocationCreate` schemas are not part of this model. They are taken to carry optional latitude/longitude, and the location fields the backend tests post.
- The `setattr` loops of `update_home` and `update_location` are modelled as assignments of the schema's fields (name, summary, description, price range).
- The user CRUD, the geocode route and the seeding scripts are not part of this model.
- backend/app/models/distance.py is not part of this model. The backend's Distance table is taken to match app/models/distance.py:8-17, in particular to have no unique constraint on (home, location).
- The `print` after a caught `ValueError` (backend/app/crud/distances.py:36-38, 57-59) writes only to standard output and is left out.
- The default `skip=0` and `limit=1000` (backend/app/crud/home.py:10) and `limit=500` (app/crud/locations.py:13) are left out. Callers pass both values explicitly.
- The provider is deterministic within one operation: two lookups with the same query or the same coordinates get the same answer. A provider whose answers change between calls is not modelled.
