/** What one materialisation pass over the counterpart entities yields: the
    rows it commits and whether an exception ended it. */
module Matrix {
  import opened Wrappers
  import opened Geo
  import opened Db

  /** One (home, location) pair visited by a pass. */
  datatype Leg = Leg(home: Endpoint, location: Endpoint)

  /** Whether a failed lookup is caught (`except ValueError`) or ends the pass. */
  datatype Policy = SkipNotFound | AbortOnAny

  datatype Outcome = Completed | Aborted(failure: Failure)

  datatype Pass = Pass(rows: seq<Distance>, outcome: Outcome)

  /** `get_distance_minutes`: a walking route from the home's coordinates to
      the location's; the keyword arguments are matched by name, so the
      location's latitude and longitude land in the end fields whatever their
      order in the call. HomePassRows and LocationPassRows state this of
      every row a pass writes. */
  function DistanceMinutes(leg: Leg, geo: Provider): Result<int>
  {
    geo.route(RouteRequest(leg.home.longitude, leg.home.latitude, leg.location.longitude, leg.location.latitude))
  }

  function Row(leg: Leg, minutes: int): Distance
  {
    Distance(leg.home.id, leg.location.id, minutes)
  }

  predicate Caught(policy: Policy, f: Failure)
  {
    policy == SkipNotFound && f == NotFound
  }

  /** The lookup of `leg` raises something the pass does not catch. */
  predicate Stops(leg: Leg, geo: Provider, policy: Policy)
  {
    DistanceMinutes(leg, geo).Err? && !Caught(policy, DistanceMinutes(leg, geo).failure)
  }

  /** The pairs a home's pass visits: the home against each location in turn. */
  function HomeLegs(home: Endpoint, locations: seq<Endpoint>): seq<Leg>
  {
    seq(|locations|, i requires 0 <= i < |locations| => Leg(home, locations[i]))
  }

  /** The pairs a location's pass visits: each home in turn against the location. */
  function LocationLegs(homes: seq<Endpoint>, location: Endpoint): seq<Leg>
  {
    seq(|homes|, i requires 0 <= i < |homes| => Leg(homes[i], location))
  }

  /** The loop, one iteration per leg: a found duration adds (and commits) one
      row, a caught failure adds nothing, an uncaught one ends the pass with
      every earlier row kept. */
  function Scan(legs: seq<Leg>, geo: Provider, policy: Policy): (p: Pass)
    ensures |p.rows| <= |legs|
    ensures p.outcome.Aborted? ==> !Caught(policy, p.outcome.failure)
    decreases |legs|
  {
    if legs == [] then Pass([], Completed)
    else
      var done := Scan(legs[..|legs| - 1], geo, policy);
      var leg := legs[|legs| - 1];
      if done.outcome.Aborted? then done
      else match DistanceMinutes(leg, geo)
        case Ok(m) => Pass(done.rows + [Row(leg, m)], Completed)
        case Err(f) => if Caught(policy, f) then done else Pass(done.rows, Aborted(f))
  }

  /** One more iteration of the loop, from the pass over the first `i` legs. */
  lemma ScanStep(legs: seq<Leg>, geo: Provider, policy: Policy, i: nat)
    requires i < |legs|
    requires Scan(legs[..i], geo, policy).outcome == Completed
    ensures var done := Scan(legs[..i], geo, policy);
      var found := DistanceMinutes(legs[i], geo);
      Scan(legs[..i + 1], geo, policy) ==
        if found.Ok? then Pass(done.rows + [Row(legs[i], found.value)], Completed)
        else if Caught(policy, found.failure) then done
        else Pass(done.rows, Aborted(found.failure))
  {
    assert legs[..i + 1][..i] == legs[..i];
  }

  /** Reference: one row per leg whose lookup succeeds, in visiting order. */
  function Resolved(legs: seq<Leg>, geo: Provider): seq<Distance>
  {
    if legs == [] then []
    else
      (match DistanceMinutes(legs[0], geo) case Ok(m) => [Row(legs[0], m)] case Err(_) => [])
      + Resolved(legs[1..], geo)
  }

  /** The index of the first leg whose failure is not caught, or |legs|. */
  function StopIndex(legs: seq<Leg>, geo: Provider, policy: Policy): (k: nat)
    ensures k <= |legs|
    ensures forall j :: 0 <= j < k ==> !Stops(legs[j], geo, policy)
    ensures k < |legs| ==> Stops(legs[k], geo, policy)
  {
    if legs == [] || Stops(legs[0], geo, policy) then 0
    else 1 + StopIndex(legs[1..], geo, policy)
  }

  lemma {:induction false} ResolvedAppend(a: seq<Leg>, b: seq<Leg>, geo: Provider)
    ensures Resolved(a + b, geo) == Resolved(a, geo) + Resolved(b, geo)
  {
    if a == [] {
      assert a + b == b;
    } else {
      assert (a + b)[0] == a[0];
      assert (a + b)[1..] == a[1..] + b;
      ResolvedAppend(a[1..], b, geo);
    }
  }

  lemma {:induction false} StopIndexOfPrefix(legs: seq<Leg>, geo: Provider, policy: Policy, i: nat)
    requires i <= |legs|
    ensures StopIndex(legs[..i], geo, policy) == Min(StopIndex(legs, geo, policy), i)
  {
    if i > 0 {
      assert legs[..i][0] == legs[0];
      if !Stops(legs[0], geo, policy) {
        assert legs[..i][1..] == legs[1..][..i - 1];
        StopIndexOfPrefix(legs[1..], geo, policy, i - 1);
      }
    }
  }

  /** The last leg's effect on a pass, stated with the reference for one leg. */
  lemma ScanLast(legs: seq<Leg>, geo: Provider, policy: Policy)
    requires legs != []
    ensures var done := Scan(legs[..|legs| - 1], geo, policy);
      var leg := legs[|legs| - 1];
      Scan(legs, geo, policy) ==
        if done.outcome.Aborted? then done
        else if Stops(leg, geo, policy) then Pass(done.rows, Aborted(DistanceMinutes(leg, geo).failure))
        else Pass(done.rows + Resolved([leg], geo), Completed)
  {
    var leg := legs[|legs| - 1];
    assert [leg][1..] == [];
  }

  /** A pass keeps exactly the rows of the resolved legs before the first
      uncaught failure, and ends with that failure if there is one. */
  lemma {:induction false} ScanStopsAtFirstUncaughtFailure(legs: seq<Leg>, geo: Provider, policy: Policy)
    ensures var k := StopIndex(legs, geo, policy);
      && Scan(legs, geo, policy).rows == Resolved(legs[..k], geo)
      && Scan(legs, geo, policy).outcome ==
           if k < |legs| then Aborted(DistanceMinutes(legs[k], geo).failure) else Completed
    decreases |legs|
  {
    if legs != [] {
      var n := |legs|;
      var init := legs[..n - 1];
      ScanStopsAtFirstUncaughtFailure(init, geo, policy);
      StopIndexOfPrefix(legs, geo, policy, n - 1);
      ScanLast(legs, geo, policy);
      var k := StopIndex(legs, geo, policy);
      if k < n - 1 {
        assert init[..k] == legs[..k];
        assert init[k] == legs[k];
      } else {
        assert init[..n - 1] == init;
        if k == n {
          assert legs[..k] == init + [legs[n - 1]];
          ResolvedAppend(init, [legs[n - 1]], geo);
        } else {
          assert legs[..k] == init;
        }
      }
    }
  }

  /** Once an uncaught failure has ended the pass, later legs change nothing:
      the loop was left at that iteration. */
  lemma AbortIsFinal(legs: seq<Leg>, geo: Provider, policy: Policy, i: nat)
    requires i <= |legs|
    requires Scan(legs[..i], geo, policy).outcome.Aborted?
    ensures Scan(legs, geo, policy) == Scan(legs[..i], geo, policy)
  {
    ScanStopsAtFirstUncaughtFailure(legs, geo, policy);
    ScanStopsAtFirstUncaughtFailure(legs[..i], geo, policy);
    StopIndexOfPrefix(legs, geo, policy, i);
    var k := StopIndex(legs, geo, policy);
    assert legs[..i][..k] == legs[..k];
    assert legs[..i][k] == legs[k];
  }

  /** Under the tolerant policy, a pass whose lookups raise nothing but
      `NotFound` completes and holds one row per resolved leg. */
  lemma TolerantPassCompletes(legs: seq<Leg>, geo: Provider)
    requires forall j :: 0 <= j < |legs| ==> DistanceMinutes(legs[j], geo) != Err(Other)
    ensures Scan(legs, geo, SkipNotFound) == Pass(Resolved(legs, geo), Completed)
  {
    ScanStopsAtFirstUncaughtFailure(legs, geo, SkipNotFound);
    assert legs[..|legs|] == legs;
  }

  /** When every lookup answers, the reference holds one row per leg, in leg
      order, carrying that leg's minutes. */
  lemma {:induction false} ResolvedAllFound(legs: seq<Leg>, geo: Provider)
    requires forall j :: 0 <= j < |legs| ==> DistanceMinutes(legs[j], geo).Ok?
    ensures |Resolved(legs, geo)| == |legs|
    ensures forall j :: 0 <= j < |legs| ==>
      Resolved(legs, geo)[j] == Row(legs[j], DistanceMinutes(legs[j], geo).value)
  {
    if legs != [] {
      ResolvedAllFound(legs[1..], geo);
      assert forall j :: 1 <= j < |legs| ==> legs[1..][j - 1] == legs[j];
    }
  }

  /** The strict pass commits the rows of the leading legs that resolved, in
      order, and aborts exactly when some leg failed, with that leg's failure. */
  lemma StrictPassStopsAtFirstFailure(legs: seq<Leg>, geo: Provider)
    ensures var p := Scan(legs, geo, AbortOnAny);
      var k := |p.rows|;
      && k <= |legs|
      && (forall j :: 0 <= j < k ==>
            DistanceMinutes(legs[j], geo).Ok? && p.rows[j] == Row(legs[j], DistanceMinutes(legs[j], geo).value))
      && (k < |legs| <==> p.outcome.Aborted?)
      && (k < |legs| ==> DistanceMinutes(legs[k], geo) == Err(p.outcome.failure))
  {
    ScanStopsAtFirstUncaughtFailure(legs, geo, AbortOnAny);
    var k := StopIndex(legs, geo, AbortOnAny);
    ResolvedAllFound(legs[..k], geo);
  }

  /** A row is in the reference exactly when some leg resolved to it. */
  lemma {:induction false} ResolvedMembership(legs: seq<Leg>, geo: Provider, d: Distance)
    ensures d in Resolved(legs, geo) <==>
      exists j :: 0 <= j < |legs| && DistanceMinutes(legs[j], geo).Ok?
                  && d == Row(legs[j], DistanceMinutes(legs[j], geo).value)
  {
    if legs != [] {
      ResolvedMembership(legs[1..], geo, d);
      assert forall j :: 1 <= j < |legs| ==> legs[1..][j - 1] == legs[j];
      if exists j :: 0 <= j < |legs| && DistanceMinutes(legs[j], geo).Ok?
                     && d == Row(legs[j], DistanceMinutes(legs[j], geo).value) {
        var j :| 0 <= j < |legs| && DistanceMinutes(legs[j], geo).Ok?
                 && d == Row(legs[j], DistanceMinutes(legs[j], geo).value);
        if j > 0 {
          assert legs[1..][j - 1] == legs[j];
        }
      }
    }
  }

  /** Every row a pass commits belongs to a visited leg and carries the duration
      the provider returned for it. */
  lemma PassRowsComeFromLegs(legs: seq<Leg>, geo: Provider, policy: Policy, d: Distance)
    requires d in Scan(legs, geo, policy).rows
    ensures exists j :: 0 <= j < |legs| && DistanceMinutes(legs[j], geo) == Ok(d.walkingDistanceMinutes)
                        && d.sourceHomeId == legs[j].home.id && d.destinationLocationId == legs[j].location.id
  {
    ScanStopsAtFirstUncaughtFailure(legs, geo, policy);
    var k := StopIndex(legs, geo, policy);
    ResolvedMembership(legs[..k], geo, d);
    var j :| 0 <= j < k && DistanceMinutes(legs[..k][j], geo).Ok?
             && d == Row(legs[..k][j], DistanceMinutes(legs[..k][j], geo).value);
    assert legs[..k][j] == legs[j];
  }

  /** A home's pass adds only rows whose source is that home; each one is the
      route from the home's coordinates to one visited location's. */
  lemma HomePassRows(home: Endpoint, locations: seq<Endpoint>, geo: Provider, policy: Policy)
    ensures forall d :: d in Scan(HomeLegs(home, locations), geo, policy).rows ==>
      && d.sourceHomeId == home.id
      && exists j :: 0 <= j < |locations| && d.destinationLocationId == locations[j].id
           && geo.route(RouteRequest(home.longitude, home.latitude, locations[j].longitude, locations[j].latitude))
              == Ok(d.walkingDistanceMinutes)
  {
    forall d | d in Scan(HomeLegs(home, locations), geo, policy).rows
      ensures d.sourceHomeId == home.id
      ensures exists j :: 0 <= j < |locations| && d.destinationLocationId == locations[j].id
                            && geo.route(RouteRequest(home.longitude, home.latitude,
                                                      locations[j].longitude, locations[j].latitude))
                               == Ok(d.walkingDistanceMinutes)
    {
      PassRowsComeFromLegs(HomeLegs(home, locations), geo, policy, d);
    }
  }

  /** A location's pass adds only rows whose destination is that location; each
      one is the route from one visited home's coordinates to the location's. */
  lemma LocationPassRows(homes: seq<Endpoint>, location: Endpoint, geo: Provider, policy: Policy)
    ensures forall d :: d in Scan(LocationLegs(homes, location), geo, policy).rows ==>
      && d.destinationLocationId == location.id
      && exists j :: 0 <= j < |homes| && d.sourceHomeId == homes[j].id
           && geo.route(RouteRequest(homes[j].longitude, homes[j].latitude, location.longitude, location.latitude))
              == Ok(d.walkingDistanceMinutes)
  {
    forall d | d in Scan(LocationLegs(homes, location), geo, policy).rows
      ensures d.destinationLocationId == location.id
      ensures exists j :: 0 <= j < |homes| && d.sourceHomeId == homes[j].id
                            && geo.route(RouteRequest(homes[j].longitude, homes[j].latitude,
                                                      location.longitude, location.latitude))
                               == Ok(d.walkingDistanceMinutes)
    {
      PassRowsComeFromLegs(LocationLegs(homes, location), geo, policy, d);
    }
  }

  predicate LegPairsDistinct(legs: seq<Leg>)
  {
    forall a, b :: 0 <= a < b < |legs| ==>
      (legs[a].home.id, legs[a].location.id) != (legs[b].home.id, legs[b].location.id)
  }

  predicate RowPairsDistinct(rows: seq<Distance>)
  {
    forall a, b :: 0 <= a < b < |rows| ==>
      (rows[a].sourceHomeId, rows[a].destinationLocationId) != (rows[b].sourceHomeId, rows[b].destinationLocationId)
  }

  lemma {:induction false} ResolvedPairsDistinct(legs: seq<Leg>, geo: Provider)
    requires LegPairsDistinct(legs)
    ensures RowPairsDistinct(Resolved(legs, geo))
  {
    if legs != [] {
      var tail := Resolved(legs[1..], geo);
      assert LegPairsDistinct(legs[1..]) by {
        forall a, b | 0 <= a < b < |legs[1..]|
          ensures (legs[1..][a].home.id, legs[1..][a].location.id) != (legs[1..][b].home.id, legs[1..][b].location.id)
        {
          assert legs[1..][a] == legs[a + 1] && legs[1..][b] == legs[b + 1];
        }
      }
      ResolvedPairsDistinct(legs[1..], geo);
      if DistanceMinutes(legs[0], geo).Ok? {
        var head := Row(legs[0], DistanceMinutes(legs[0], geo).value);
        assert Resolved(legs, geo) == [head] + tail;
        forall b | 0 <= b < |tail|
          ensures (head.sourceHomeId, head.destinationLocationId) != (tail[b].sourceHomeId, tail[b].destinationLocationId)
        {
          ResolvedMembership(legs[1..], geo, tail[b]);
          var j :| 0 <= j < |legs[1..]| && DistanceMinutes(legs[1..][j], geo).Ok?
                   && tail[b] == Row(legs[1..][j], DistanceMinutes(legs[1..][j], geo).value);
          assert legs[1..][j] == legs[j + 1];
        }
      } else {
        assert Resolved(legs, geo) == tail;
      }
    }
  }

  /** When the locations have distinct ids (they are primary keys), a home's
      pass adds at most one row per location. */
  lemma HomePassOnePerLocation(home: Endpoint, locations: seq<Endpoint>, geo: Provider, policy: Policy)
    requires forall a, b :: 0 <= a < b < |locations| ==> locations[a].id != locations[b].id
    ensures var rows := Scan(HomeLegs(home, locations), geo, policy).rows;
      forall a, b :: 0 <= a < b < |rows| ==> rows[a].destinationLocationId != rows[b].destinationLocationId
  {
    var legs := HomeLegs(home, locations);
    ScanStopsAtFirstUncaughtFailure(legs, geo, policy);
    var k := StopIndex(legs, geo, policy);
    ResolvedPairsDistinct(legs[..k], geo);
    HomePassRows(home, locations, geo, policy);
    var rows := Scan(legs, geo, policy).rows;
    forall a, b | 0 <= a < b < |rows|
      ensures rows[a].destinationLocationId != rows[b].destinationLocationId
    {
      assert rows[a] in rows && rows[b] in rows;
    }
  }

  /** When the homes have distinct ids, a location's pass adds at most one row
      per home. */
  lemma LocationPassOnePerHome(homes: seq<Endpoint>, location: Endpoint, geo: Provider, policy: Policy)
    requires forall a, b :: 0 <= a < b < |homes| ==> homes[a].id != homes[b].id
    ensures var rows := Scan(LocationLegs(homes, location), geo, policy).rows;
      forall a, b :: 0 <= a < b < |rows| ==> rows[a].sourceHomeId != rows[b].sourceHomeId
  {
    var legs := LocationLegs(homes, location);
    ScanStopsAtFirstUncaughtFailure(legs, geo, policy);
    var k := StopIndex(legs, geo, policy);
    ResolvedPairsDistinct(legs[..k], geo);
    LocationPassRows(homes, location, geo, policy);
    var rows := Scan(legs, geo, policy).rows;
    forall a, b | 0 <= a < b < |rows|
      ensures rows[a].sourceHomeId != rows[b].sourceHomeId
    {
      assert rows[a] in rows && rows[b] in rows;
    }
  }

  /** The rows the homes would get if each one were materialised on its own
      against the single location. */
  function EachHomeAlone(homes: seq<Endpoint>, location: Endpoint, geo: Provider): seq<Distance>
  {
    if homes == [] then []
    else Scan(HomeLegs(homes[0], [location]), geo, SkipNotFound).rows + EachHomeAlone(homes[1..], location, geo)
  }

  lemma {:induction false} ResolvedIsEachHomeAlone(homes: seq<Endpoint>, location: Endpoint, geo: Provider)
    requires forall j :: 0 <= j < |homes| ==> DistanceMinutes(Leg(homes[j], location), geo) != Err(Other)
    ensures Resolved(LocationLegs(homes, location), geo) == EachHomeAlone(homes, location, geo)
  {
    if homes != [] {
      var first := Leg(homes[0], location);
      assert LocationLegs(homes, location) == [first] + LocationLegs(homes[1..], location);
      ResolvedAppend([first], LocationLegs(homes[1..], location), geo);
      assert HomeLegs(homes[0], [location]) == [first];
      TolerantPassCompletes([first], geo);
      assert [first][1..] == [];
      ResolvedIsEachHomeAlone(homes[1..], location, geo);
    }
  }

  /** Symmetry: materialising a location against the homes gives the same rows,
      in the same order, as materialising each home alone against it. */
  lemma LocationPassIsEachHomesPass(homes: seq<Endpoint>, location: Endpoint, geo: Provider)
    requires forall j :: 0 <= j < |homes| ==> DistanceMinutes(Leg(homes[j], location), geo) != Err(Other)
    ensures Scan(LocationLegs(homes, location), geo, SkipNotFound) == Pass(EachHomeAlone(homes, location, geo), Completed)
  {
    TolerantPassCompletes(LocationLegs(homes, location), geo);
    ResolvedIsEachHomeAlone(homes, location, geo);
  }

  /** A home at (0, 0) against a reachable location (12 minutes) and an
      unreachable one: the tolerant pass keeps the one row and completes, the
      strict pass keeps the same row and then fails. */
  lemma ReachableAndUnreachable(home: Endpoint, reachable: Endpoint, unreachable: Endpoint, geo: Provider)
    requires home.longitude == 0.0 && home.latitude == 0.0
    requires geo.route(RouteRequest(0.0, 0.0, reachable.longitude, reachable.latitude)) == Ok(12)
    requires geo.route(RouteRequest(0.0, 0.0, unreachable.longitude, unreachable.latitude)) == Err(NotFound)
    ensures Scan(HomeLegs(home, [reachable, unreachable]), geo, SkipNotFound)
            == Pass([Distance(home.id, reachable.id, 12)], Completed)
    ensures Scan(HomeLegs(home, [reachable, unreachable]), geo, AbortOnAny)
            == Pass([Distance(home.id, reachable.id, 12)], Aborted(NotFound))
  {
    var legs := HomeLegs(home, [reachable, unreachable]);
    assert legs == [Leg(home, reachable), Leg(home, unreachable)];
    assert legs[..1] == [Leg(home, reachable)] && legs[..1][..0] == [];
    assert DistanceMinutes(legs[0], geo) == Ok(12);
    assert DistanceMinutes(legs[1], geo) == Err(NotFound);
    assert Scan(legs[..1], geo, SkipNotFound) == Pass([Distance(home.id, reachable.id, 12)], Completed);
    assert Scan(legs[..1], geo, AbortOnAny) == Pass([Distance(home.id, reachable.id, 12)], Completed);
  }
}
