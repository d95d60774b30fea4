/** The request handlers of the planning server that drive the store:
    manual planning, planning from CSV records, reading one route, and
    sending the LINE notification. Each handler is a method over the
    store; the geocoder, the Directions service, the LINE push call and
    the clock are parameters. */
module Handlers {
  import opened Wrappers
  import opened Text
  import opened Schema
  import opened StopOrder
  import opened Storage
  import opened FileProcessor
  import opened RouteOptimization
  import opened MapsLink
  import opened LineBot

  const InvalidInputMessage := "輸入資料格式不正確"
  const NoFileMessage := "請上傳CSV檔案"
  const NoAddressesMessage := "CSV檔案不包含任何地址"
  const RouteNotFoundMessage := "找不到路線"
  const RecipientNotFoundMessage := "找不到LINE接收者"
  const InvalidRouteIdMessage := "無效的路線ID"
  const ManualRoutePrefix := "路線 "
  const CsvRoutePrefix := "CSV匯入 "

  /** The coordinates (`lat`, `lng` as text) the geocoder gives a stored
      stop. */
  type Geocoder = Address -> (string, string)

  /** What a planning handler answers: the route with its stops, or an
      error status and message. */
  datatype PlanReply = Planned(route: Route, addresses: seq<Address>) | Refused(status: int, message: string)

  // ------------------------------------------------------------ the stops

  /** The `createAddress` argument for one stop: no coordinates yet, the
      note defaulting to `""`. */
  function StopInsert(address: string, note: Option<string>, isStart: bool, isEnd: bool,
                      routeId: int, sequence: int): InsertAddress
  {
    InsertAddress(address, None, None, Some(OrElse(note, "")), Some(isStart), Some(isEnd), routeId, Some(sequence))
  }

  /** `allAddresses` of the manual path as `createAddress` arguments: the
      start, the waypoints, the end, numbered 0, 1 .. n, n + 1. */
  function ManualStops(input: AddressInput, routeId: int): seq<InsertAddress> {
    var n := |input.waypoints|;
    [StopInsert(input.startPoint.address, input.startPoint.note, true, false, routeId, 0)]
    + seq(n, k requires 0 <= k < n =>
            StopInsert(input.waypoints[k].address, input.waypoints[k].note, false, false, routeId, k + 1))
    + [StopInsert(input.endPoint.address, input.endPoint.note, false, true, routeId, n + 1)]
  }

  /** The `createAddress` arguments of the CSV path: the flags and the
      sequence come from the position alone. */
  function CsvStops(rows: seq<Normalized>, routeId: int): seq<InsertAddress> {
    seq(|rows|, k requires 0 <= k < |rows| =>
          StopInsert(rows[k].address.GetOr(""), rows[k].note, k == 0, k == |rows| - 1, routeId, k))
  }

  /** Where a stop stands in the list it was created from. */
  predicate PositionalStop(s: InsertAddress, routeId: int, k: int, count: int) {
    s.routeId == routeId && s.lat.None? && s.lng.None? && s.note.Some?
    && s.sequence == Some(k)
    && s.isStartPoint.Some? && s.isEndPoint.Some?
    && (s.isStartPoint.value <==> k == 0)
    && (s.isEndPoint.value <==> k == count - 1)
  }

  /** The manual stops: the start, each waypoint and the end in that
      order, with their addresses and notes (`""` when absent); only the
      first is flagged start and only the last end; stop k has sequence k,
      the route's id and no coordinates. */
  lemma ManualStopsShape(input: AddressInput, routeId: int)
    ensures var stops := ManualStops(input, routeId);
            var n := |input.waypoints|;
            |stops| == n + 2
            && stops[0].address == input.startPoint.address
            && stops[0].note == Some(OrElse(input.startPoint.note, ""))
            && stops[n + 1].address == input.endPoint.address
            && stops[n + 1].note == Some(OrElse(input.endPoint.note, ""))
            && (forall k :: 0 <= k < n ==>
                  stops[k + 1].address == input.waypoints[k].address
                  && stops[k + 1].note == Some(OrElse(input.waypoints[k].note, "")))
            && forall k :: 0 <= k < |stops| ==> PositionalStop(stops[k], routeId, k, |stops|)
  {
  }

  /** The CSV stops: one per row, with the row's address and note (`""`
      when absent); the first is flagged start and the last end, a lone
      row both; stop k has sequence k, the route's id and no coordinates. */
  lemma CsvStopsShape(rows: seq<Normalized>, routeId: int)
    ensures var stops := CsvStops(rows, routeId);
            |stops| == |rows|
            && (forall k :: 0 <= k < |rows| ==>
                  stops[k].address == rows[k].address.GetOr("")
                  && stops[k].note == Some(OrElse(rows[k].note, ""))
                  && PositionalStop(stops[k], routeId, k, |rows|))
            && (|rows| == 1 ==> stops[0].isStartPoint == Some(true) && stops[0].isEndPoint == Some(true))
  {
  }

  /** The role flags `csvUpload` read from the file play no part: rows
      that agree on address and note give the same stops. */
  lemma CsvStopsIgnoreFlags(rows: seq<Normalized>, others: seq<Normalized>, routeId: int)
    requires |rows| == |others|
    requires forall k :: 0 <= k < |rows| ==> rows[k].address == others[k].address && rows[k].note == others[k].note
    ensures CsvStops(rows, routeId) == CsvStops(others, routeId)
  {
  }

  /** The records `createAddress` makes of consecutive inserts. */
  function Stored(inserts: seq<InsertAddress>, firstId: int): seq<Address> {
    seq(|inserts|, k requires 0 <= k < |inserts| => AddressRecord(inserts[k], firstId + k))
  }

  /** A stop with the geocoder's coordinates. */
  function Locate(a: Address, geocode: Geocoder): Address {
    a.(lat := Some(geocode(a).0), lng := Some(geocode(a).1))
  }

  function LocateAll(xs: seq<Address>, geocode: Geocoder): seq<Address> {
    seq(|xs|, k requires 0 <= k < |xs| => Locate(xs[k], geocode))
  }

  /** A located stored stop keeps everything its insert gave it but the
      coordinates. */
  lemma LocatedStoredAt(inserts: seq<InsertAddress>, firstId: int, geocode: Geocoder, k: int)
    requires 0 <= k < |inserts|
    ensures var a := LocateAll(Stored(inserts, firstId), geocode)[k];
            a.id == firstId + k && a.address == inserts[k].address && a.note == inserts[k].note
            && a.isStartPoint == inserts[k].isStartPoint && a.isEndPoint == inserts[k].isEndPoint
            && a.routeId == inserts[k].routeId && a.sequence == inserts[k].sequence
            && a.lat == Some(geocode(Stored(inserts, firstId)[k]).0)
            && a.lng == Some(geocode(Stored(inserts, firstId)[k]).1)
  {
  }

  /** Stops stored from positional inserts and then located are already in
      the order the store reads them back in. */
  lemma PositionalIsCanonical(inserts: seq<InsertAddress>, routeId: int, firstId: int, geocode: Geocoder)
    requires forall k :: 0 <= k < |inserts| ==> PositionalStop(inserts[k], routeId, k, |inserts|)
    ensures var xs := LocateAll(Stored(inserts, firstId), geocode);
            StartInteriorEnd(xs) && Sort(xs) == xs
            && forall k :: 0 <= k < |xs| ==> xs[k].routeId == routeId
  {
    var xs := LocateAll(Stored(inserts, firstId), geocode);
    forall k | 0 <= k < |xs|
      ensures xs[k].routeId == routeId
      ensures Rank(xs[k]) == 0 ==> k == 0
      ensures Rank(xs[k]) == 2 ==> k == |xs| - 1
      ensures SeqKey(xs[k]) == k
    {
      LocatedStoredAt(inserts, firstId, geocode, k);
    }
    ShapedIsSorted(xs);
  }

  // ------------------------------------------------------ store helpers

  lemma {:induction false} OfRouteAppend(xs: seq<Address>, ys: seq<Address>, routeId: int)
    ensures OfRoute(xs + ys, routeId) == OfRoute(xs, routeId) + OfRoute(ys, routeId)
    decreases |ys|
  {
    if ys == [] {
      assert xs + ys == xs;
    } else {
      var init, last := ys[..|ys| - 1], ys[|ys| - 1];
      var tail := if last.routeId == routeId then [last] else [];
      OfRouteAppend(xs, init, routeId);
      assert (xs + ys)[..|xs + ys| - 1] == xs + init;
      assert OfRoute(xs + ys, routeId) == OfRoute(xs + init, routeId) + tail;
      assert OfRoute(ys, routeId) == OfRoute(init, routeId) + tail;
    }
  }

  lemma {:induction false} OfRouteNone(xs: seq<Address>, routeId: int)
    requires forall k :: 0 <= k < |xs| ==> xs[k].routeId != routeId
    ensures OfRoute(xs, routeId) == []
  {
    if xs != [] {
      OfRouteNone(xs[..|xs| - 1], routeId);
    }
  }

  /** A list the filter keeps whole stays whole with one more stop of the
      route. */
  lemma OfRouteSnoc(init: seq<Address>, last: Address, routeId: int)
    requires OfRoute(init, routeId) == init && last.routeId == routeId
    ensures OfRoute(init + [last], routeId) == init + [last]
  {
    assert (init + [last])[..|init|] == init;
  }

  lemma {:induction false} OfRouteAll(xs: seq<Address>, routeId: int)
    requires forall k :: 0 <= k < |xs| ==> xs[k].routeId == routeId
    ensures OfRoute(xs, routeId) == xs
  {
    if xs != [] {
      var init, last := xs[..|xs| - 1], xs[|xs| - 1];
      forall k | 0 <= k < |init| ensures init[k].routeId == routeId {
        assert init[k] == xs[k];
      }
      OfRouteAll(init, routeId);
      OfRouteSnoc(init, last, routeId);
      assert init + [last] == xs;
    }
  }

  /** The `createAddress` calls of one request, one per insert, in order:
      the new stops take the next ids and go last in the listing. */
  method CreateStops(store: MemStorage, inserts: seq<InsertAddress>) returns (createdAddresses: seq<Address>)
    requires store.Valid() && store.StopsHaveRoutes()
    requires forall k :: 0 <= k < |inserts| ==> inserts[k].routeId < store.routeCurrentId
    modifies store
    ensures store.Valid() && store.StopsHaveRoutes()
    ensures createdAddresses == Stored(inserts, old(store.addressCurrentId))
    ensures store.AllAddresses() == old(store.AllAddresses()) + createdAddresses
    ensures store.addressCurrentId == old(store.addressCurrentId) + |inserts|
    ensures store.users == old(store.users) && store.routes == old(store.routes)
    ensures store.lineSettings == old(store.lineSettings)
    ensures store.userCurrentId == old(store.userCurrentId) && store.routeCurrentId == old(store.routeCurrentId)
    ensures store.lineSettingsCurrentId == old(store.lineSettingsCurrentId)
  {
    ghost var first := store.addressCurrentId;
    ghost var before := store.AllAddresses();
    createdAddresses := [];
    var k := 0;
    while k < |inserts|
      invariant 0 <= k <= |inserts|
      invariant store.Valid() && store.StopsHaveRoutes()
      invariant |createdAddresses| == k
      invariant forall j :: 0 <= j < k ==> createdAddresses[j] == AddressRecord(inserts[j], first + j)
      invariant store.AllAddresses() == before + createdAddresses
      invariant store.addressCurrentId == first + k
      invariant store.users == old(store.users) && store.routes == old(store.routes)
      invariant store.lineSettings == old(store.lineSettings)
      invariant store.userCurrentId == old(store.userCurrentId) && store.routeCurrentId == old(store.routeCurrentId)
      invariant store.lineSettingsCurrentId == old(store.lineSettingsCurrentId)
    {
      var address := store.CreateAddress(inserts[k]);
      Regroup3(before, createdAddresses, [address]);
      createdAddresses := createdAddresses + [address];
      k := k + 1;
    }
  }

  /** Everything in the store but the stops themselves. */
  function Untouched(store: MemStorage): (map<int, User>, map<int, Route>, map<int, LineSettings>, int, int, int, int)
    reads store
  {
    (store.users, store.routes, store.lineSettings,
     store.userCurrentId, store.addressCurrentId, store.routeCurrentId, store.lineSettingsCurrentId)
  }

  /** Replacing the first not yet replaced element. */
  lemma UpdateStep(prefix: seq<Address>, g: seq<Address>, c: seq<Address>, k: int)
    requires |g| == |c| && 0 <= k < |c|
    ensures (prefix + g[..k] + c[k..])[|prefix| + k] == c[k]
    ensures (prefix + g[..k] + c[k..])[|prefix| + k := g[k]] == prefix + g[..k + 1] + c[k + 1..]
  {
    assert g[..k + 1] == g[..k] + [g[k]];
    assert c[k..] == [c[k]] + c[k + 1..];
  }

  /** One `updateAddressCoordinates(addr.id, addr.lat, addr.lng)` call for
      the stop listed at `i`, which `addr` is with coordinates. */
  method SaveCoordinates(store: MemStorage, addr: Address, i: int)
    requires store.Valid() && store.StopsHaveRoutes()
    requires 0 <= i < |store.AllAddresses()| && addr.lat.Some? && addr.lng.Some?
    requires addr == store.AllAddresses()[i].(lat := addr.lat, lng := addr.lng)
    modifies store
    ensures store.Valid() && store.StopsHaveRoutes()
    ensures store.AllAddresses() == old(store.AllAddresses())[i := addr]
    ensures Untouched(store) == old(Untouched(store))
  {
    assert store.AllAddresses()[i] == store.addresses[i + 1];
    var updated := store.UpdateAddressCoordinates(addr.id, addr.lat.value, addr.lng.value);
  }

  /** The call for the `k`th new stop, with the stops before it located
      and the ones after it not yet. */
  method LocateAt(store: MemStorage, ghost prefix: seq<Address>, p: int, g: seq<Address>, c: seq<Address>, k: int)
    requires store.Valid() && store.StopsHaveRoutes()
    requires p == |prefix| && |g| == |c| && 0 <= k < |c|
    requires g[k].lat.Some? && g[k].lng.Some? && g[k] == c[k].(lat := g[k].lat, lng := g[k].lng)
    requires store.AllAddresses() == prefix + g[..k] + c[k..]
    modifies store
    ensures store.Valid() && store.StopsHaveRoutes()
    ensures store.AllAddresses() == prefix + g[..k + 1] + c[k + 1..]
    ensures Untouched(store) == old(Untouched(store))
  {
    UpdateStep(prefix, g, c, k);
    SaveCoordinates(store, g[k], p + k);
  }

  /** The `updateAddressCoordinates` calls of one request: each newly
      created stop, which sits at the end of the listing, takes the
      geocoder's coordinates in place. */
  method LocateStops(store: MemStorage, createdAddresses: seq<Address>, geocode: Geocoder)
    returns (geocodedAddresses: seq<Address>)
    requires store.Valid() && store.StopsHaveRoutes()
    requires |createdAddresses| <= |store.AllAddresses()|
    requires store.AllAddresses()[|store.AllAddresses()| - |createdAddresses|..] == createdAddresses
    modifies store
    ensures store.Valid() && store.StopsHaveRoutes()
    ensures geocodedAddresses == LocateAll(createdAddresses, geocode)
    ensures var p := |old(store.AllAddresses())| - |createdAddresses|;
            store.AllAddresses() == old(store.AllAddresses())[..p] + geocodedAddresses
    ensures Untouched(store) == old(Untouched(store))
  {
    geocodedAddresses := LocateAll(createdAddresses, geocode);
    ghost var all := store.AllAddresses();
    var p := store.addressCurrentId - 1 - |createdAddresses|;
    assert all == all[..p] + geocodedAddresses[..0] + createdAddresses[0..];
    var k := 0;
    while k < |geocodedAddresses|
      invariant 0 <= k <= |geocodedAddresses|
      invariant store.Valid() && store.StopsHaveRoutes()
      invariant store.AllAddresses() == all[..p] + geocodedAddresses[..k] + createdAddresses[k..]
      invariant Untouched(store) == old(Untouched(store))
    {
      LocateAt(store, all[..p], p, geocodedAddresses, createdAddresses, k);
      k := k + 1;
    }
    assert geocodedAddresses[..k] == geocodedAddresses;
    assert store.AllAddresses() == all[..p] + geocodedAddresses;
  }

  // ------------------------------------------------------ the planners

  /** `{ distance, duration, mapsUrl }`, the update written once a route
      has been planned. */
  function ResultPatch(optimizedRoute: OptimizedRoute, mapsUrl: string): RoutePatch {
    RoutePatch(None, Some(Some(optimizedRoute.distance)), Some(Some(optimizedRoute.duration)), Some(Some(mapsUrl)), None)
  }

  /** The summary `optimizeRoute` gives for these stops: the measured
      totals when the Directions service answers, a made-up one otherwise. */
  ghost predicate Summarizes(r: OptimizedRoute, addresses: seq<Address>, apiKey: string,
                             directions: DirectionsRequest -> DirectionsReply) {
    var legs := MeasuredLegs(addresses, apiKey, directions);
    if legs.Some? then r == MeasuredRoute(TotalMeters(legs.value), TotalSeconds(legs.value)) else IsFallback(r)
  }

  /** `done` is `created` with the summary of the stops and the link
      through them written in, and nothing else changed. */
  ghost predicate Completed(done: Route, created: Route, stops: seq<Address>, apiKey: string,
                            directions: DirectionsRequest -> DirectionsReply) {
    done.distance.Some? && done.duration.Some?
    && Summarizes(OptimizedRoute(done.distance.value, done.duration.value), stops, apiKey, directions)
    && done == created.(distance := done.distance, duration := done.duration,
                        mapsUrl := Some(MapsBase + MapsPath(Locations(stops))))
  }

  /** The result update writes the summary and the link and keeps the
      rest of the route. */
  lemma ResultPatchCompletes(created: Route, optimizedRoute: OptimizedRoute, stops: seq<Address>, apiKey: string,
                             directions: DirectionsRequest -> DirectionsReply)
    requires Summarizes(optimizedRoute, stops, apiKey, directions)
    ensures Completed(ApplyPatch(created, ResultPatch(optimizedRoute, MapsBase + MapsPath(Locations(stops)))),
                      created, stops, apiKey, directions)
  {
    var done := ApplyPatch(created, ResultPatch(optimizedRoute, MapsBase + MapsPath(Locations(stops))));
    assert OptimizedRoute(done.distance.value, done.duration.value) == optimizedRoute;
  }

  /** The tail both planners share: read the route's stops back, summarize
      them, build the link, and write both onto the route. */
  method FinishRoute(store: MemStorage, routeId: int, apiKey: string, directions: DirectionsRequest -> DirectionsReply)
    returns (updatedRoute: Option<Route>, addresses: seq<Address>, optimizedRoute: OptimizedRoute)
    requires store.Valid() && store.StopsHaveRoutes()
    requires routeId in store.routes
    modifies store
    ensures store.Valid() && store.StopsHaveRoutes()
    ensures addresses == old(store.AddressesByRouteId(routeId))
    ensures Summarizes(optimizedRoute, addresses, apiKey, directions)
    ensures updatedRoute == Some(ApplyPatch(old(store.routes)[routeId],
                                            ResultPatch(optimizedRoute, MapsBase + MapsPath(Locations(Sort(addresses))))))
    ensures store.routes == old(store.routes)[routeId := updatedRoute.value]
    ensures store.users == old(store.users) && store.addresses == old(store.addresses)
    ensures store.lineSettings == old(store.lineSettings)
    ensures store.userCurrentId == old(store.userCurrentId) && store.addressCurrentId == old(store.addressCurrentId)
    ensures store.routeCurrentId == old(store.routeCurrentId)
    ensures store.lineSettingsCurrentId == old(store.lineSettingsCurrentId)
  {
    addresses := store.AddressesByRouteId(routeId);
    optimizedRoute := OptimizeRoute(addresses, apiKey, directions);
    var mapsUrl := GenerateMapsUrl(addresses);
    updatedRoute := store.UpdateRoute(routeId, ResultPatch(optimizedRoute, mapsUrl));
  }

  /** Every stored stop belongs to a route older than `routeId`. */
  ghost predicate StopsBefore(store: MemStorage, routeId: int)
    reads store
  {
    forall id :: id in store.addresses ==> store.addresses[id].routeId < routeId
  }

  /** What both planners do once their route exists: create the stops,
      geocode them, read them back, and complete the route. The stops come
      back exactly as created and located, in their creation order. */
  method StoreAndPlan(store: MemStorage, route: Route, inserts: seq<InsertAddress>, geocode: Geocoder,
                      apiKey: string, directions: DirectionsRequest -> DirectionsReply) returns (reply: PlanReply)
    requires store.Valid() && store.StopsHaveRoutes() && StopsBefore(store, route.id)
    requires route.id in store.routes && store.routes[route.id] == route
    requires forall k :: 0 <= k < |inserts| ==> PositionalStop(inserts[k], route.id, k, |inserts|)
    modifies store
    ensures store.Valid() && store.StopsHaveRoutes()
    ensures var stops := LocateAll(Stored(inserts, old(store.addressCurrentId)), geocode);
            reply.Planned? && reply.addresses == stops
            && Completed(reply.route, route, stops, apiKey, directions)
            && store.AllAddresses() == old(store.AllAddresses()) + stops
            && store.AddressesByRouteId(route.id) == stops
            && store.routes == old(store.routes)[route.id := reply.route]
    ensures store.addressCurrentId == old(store.addressCurrentId) + |inserts|
    ensures store.users == old(store.users) && store.lineSettings == old(store.lineSettings)
    ensures store.userCurrentId == old(store.userCurrentId) && store.routeCurrentId == old(store.routeCurrentId)
    ensures store.lineSettingsCurrentId == old(store.lineSettingsCurrentId)
  {
    ghost var before := store.AllAddresses();
    ghost var stops := LocateAll(Stored(inserts, store.addressCurrentId), geocode);
    assert forall k :: 0 <= k < |before| ==> before[k].routeId != route.id by {
      forall k | 0 <= k < |before| ensures before[k].routeId != route.id {
        assert before[k] == store.addresses[k + 1];
      }
    }
    var createdAddresses := CreateStops(store, inserts);
    assert (before + createdAddresses)[|before|..] == createdAddresses;
    var geocodedAddresses := LocateStops(store, createdAddresses, geocode);
    assert (before + createdAddresses)[..|before|] == before;
    assert store.AllAddresses() == before + stops;
    PositionalIsCanonical(inserts, route.id, old(store.addressCurrentId), geocode);
    OfRouteAppend(before, stops, route.id);
    OfRouteAll(stops, route.id);
    OfRouteNone(before, route.id);
    assert OfRoute(store.AllAddresses(), route.id) == stops;
    assert store.AddressesByRouteId(route.id) == Sort(stops) == stops;
    var updatedRoute, addresses, optimizedRoute := FinishRoute(store, route.id, apiKey, directions);
    ResultPatchCompletes(route, optimizedRoute, stops, apiKey, directions);
    reply := Planned(updatedRoute.value, addresses);
  }

  /** Reading a stored route back by its id, written out in decimal, gives
      the route and its stops. */
  lemma ReadsBack(store: MemStorage, id: nat, route: Route, addresses: seq<Address>)
    requires store.Valid() && 1 <= id < store.routeCurrentId
    requires store.routes[id] == route && store.AddressesByRouteId(id) == addresses
    ensures RouteDetails(store, NatToString(id)) == Details(route, addresses)
  {
    ParseIntOfNatToString(id);
  }

  /** The route a planner creates first: the name, empty results, not yet
      notified. */
  function NewRoute(name: string): InsertRoute {
    InsertRoute(name, Some(""), Some(""), Some(""), Some(false))
  }

  /** Writing a key twice keeps the second value. */
  lemma UpdateTwice<K, V>(m: map<K, V>, k: K, first: V, second: V)
    ensures m[k := first][k := second] == m[k := second]
  {
  }

  /** A planner once its stops are known: create the route, then store,
      locate and read back the stops and complete the route. */
  method PlanStops(store: MemStorage, name: string, now: int, inserts: seq<InsertAddress>, geocode: Geocoder,
                   apiKey: string, directions: DirectionsRequest -> DirectionsReply) returns (reply: PlanReply)
    requires store.Valid() && store.StopsHaveRoutes()
    requires forall k :: 0 <= k < |inserts| ==> PositionalStop(inserts[k], store.routeCurrentId, k, |inserts|)
    modifies store
    ensures store.Valid() && store.StopsHaveRoutes()
    ensures var id := old(store.routeCurrentId);
            var stops := LocateAll(Stored(inserts, old(store.addressCurrentId)), geocode);
            reply.Planned? && reply.addresses == stops
            && Completed(reply.route, RouteRecord(NewRoute(name), id, now), stops, apiKey, directions)
            && store.AllAddresses() == old(store.AllAddresses()) + stops
            && store.routes == old(store.routes)[id := reply.route] && store.routeCurrentId == id + 1
            && RouteDetails(store, NatToString(id)) == Details(reply.route, reply.addresses)
  {
    assert StopsBefore(store, store.routeCurrentId);
    ghost var routes := store.routes;
    var route := store.CreateRoute(NewRoute(name), now);
    reply := StoreAndPlan(store, route, inserts, geocode, apiKey, directions);
    ReadsBack(store, route.id, reply.route, reply.addresses);
    UpdateTwice(routes, route.id, route, reply.route);
  }

  /** `POST /api/plan-route` with the request body, the clock (`now`, and
      `clockText` for the name) and the outside services as parameters. A
      body the schema refuses is answered 400 and nothing is stored;
      otherwise a route and its stops (start, waypoints, end) are stored,
      the stops are located, and the completed route is answered together
      with its stops as reading the route back gives them. */
  method PlanRoute(store: MemStorage, body: Json, now: int, clockText: string, geocode: Geocoder,
                   apiKey: string, directions: DirectionsRequest -> DirectionsReply) returns (reply: PlanReply)
    requires store.Valid() && store.StopsHaveRoutes()
    modifies store
    ensures store.Valid() && store.StopsHaveRoutes()
    ensures ParseAddressInput(body).None? ==> reply == Refused(400, InvalidInputMessage) && unchanged(store)
    ensures ParseAddressInput(body).Some? ==>
              var id := old(store.routeCurrentId);
              var stops := LocateAll(Stored(ManualStops(ParseAddressInput(body).value, id), old(store.addressCurrentId)),
                                     geocode);
              reply.Planned? && reply.addresses == stops
              && Completed(reply.route, RouteRecord(NewRoute(ManualRoutePrefix + clockText), id, now), stops,
                           apiKey, directions)
              && store.AllAddresses() == old(store.AllAddresses()) + stops
              && store.routes == old(store.routes)[id := reply.route] && store.routeCurrentId == id + 1
              && RouteDetails(store, NatToString(id)) == Details(reply.route, reply.addresses)
  {
    var validatedData := ParseAddressInput(body);
    if validatedData.None? {
      return Refused(400, InvalidInputMessage);
    }
    ManualStopsShape(validatedData.value, store.routeCurrentId);
    reply := PlanStops(store, ManualRoutePrefix + clockText, now, ManualStops(validatedData.value, store.routeCurrentId),
                       geocode, apiKey, directions);
  }

  /** `POST /api/upload-csv` on the records the CSV parser produced
      (`None` when no file came with the request). No file, or a file with
      no records, is answered 400 and nothing is stored; otherwise the
      records are cleaned up, a route is stored with one stop per
      surviving record (the first the start, the last the end), and the
      rest goes as for a manual plan. */
  method UploadCsv(store: MemStorage, file: Option<seq<CsvRecord>>, now: int, clockText: string, geocode: Geocoder,
                   apiKey: string, directions: DirectionsRequest -> DirectionsReply) returns (reply: PlanReply)
    requires store.Valid() && store.StopsHaveRoutes()
    modifies store
    ensures store.Valid() && store.StopsHaveRoutes()
    ensures file.None? ==> reply == Refused(400, NoFileMessage) && unchanged(store)
    ensures file == Some([]) ==> reply == Refused(400, NoAddressesMessage) && unchanged(store)
    ensures file.Some? && file.value != [] ==>
              var id := old(store.routeCurrentId);
              var stops := LocateAll(Stored(CsvStops(CsvUploadResult(file.value), id), old(store.addressCurrentId)),
                                     geocode);
              reply.Planned? && reply.addresses == stops
              && Completed(reply.route, RouteRecord(NewRoute(CsvRoutePrefix + clockText), id, now), stops,
                           apiKey, directions)
              && store.AllAddresses() == old(store.AllAddresses()) + stops
              && store.routes == old(store.routes)[id := reply.route] && store.routeCurrentId == id + 1
              && RouteDetails(store, NatToString(id)) == Details(reply.route, reply.addresses)
  {
    if file.None? {
      return Refused(400, NoFileMessage);
    }
    var records := file.value;
    if |records| == 0 {
      return Refused(400, NoAddressesMessage);
    }
    var addresses := CsvUpload(records);
    CsvStopsShape(addresses, store.routeCurrentId);
    reply := PlanStops(store, CsvRoutePrefix + clockText, now, CsvStops(addresses, store.routeCurrentId),
                       geocode, apiKey, directions);
  }

  // ------------------------------------------------------ reading routes

  /** A route with its stops, or an error status and message. */
  datatype DetailsReply = Details(route: Route, addresses: seq<Address>) | DetailsRefused(status: int, message: string)

  /** `GET /api/routes/:id`: an id that does not parse is answered 400, an
      unknown one 404; otherwise the route and its stops in canonical
      order. */
  function RouteDetails(store: MemStorage, idText: string): (r: DetailsReply)
    reads store
    requires store.Valid()
    ensures ParseInt(idText).None? ==> r == DetailsRefused(400, InvalidRouteIdMessage)
    ensures ParseInt(idText).Some? && !(1 <= ParseInt(idText).value < store.routeCurrentId) ==>
              r == DetailsRefused(404, RouteNotFoundMessage)
    ensures ParseInt(idText).Some? && 1 <= ParseInt(idText).value < store.routeCurrentId ==>
              r.Details? && r.route.id == ParseInt(idText).value && r.route in store.AllRouteValues()
              && r.addresses == store.AddressesByRouteId(r.route.id)
  {
    var id := ParseInt(idText);
    if id.None? then DetailsRefused(400, InvalidRouteIdMessage)
    else
      var route := store.GetRoute(id.value);
      if route.None? then DetailsRefused(404, RouteNotFoundMessage)
      else
        assert route.value == store.AllRouteValues()[id.value - 1];
        Details(route.value, store.AddressesByRouteId(id.value))
  }

  /** Each route paired with its stops (the `Promise.all` over
      `routes.map`). */
  function WithStops(store: MemStorage, routes: seq<Route>): (r: seq<DetailsReply>)
    reads store
    requires store.Valid()
    ensures |r| == |routes|
    ensures forall k :: 0 <= k < |routes| ==> r[k] == Details(routes[k], store.AddressesByRouteId(routes[k].id))
  {
    if routes == [] then [] else [Details(routes[0], store.AddressesByRouteId(routes[0].id))] + WithStops(store, routes[1..])
  }

  /** `GET /api/routes`: every route, newest first, each with its stops. */
  function History(store: MemStorage): seq<DetailsReply>
    reads store
    requires store.Valid()
  {
    WithStops(store, store.AllRoutes())
  }

  /** The history lists every stored route once, newest first, and each
      entry is what reading that route by its id gives. */
  lemma HistoryReadsBack(store: MemStorage)
    requires store.Valid()
    ensures var h := History(store);
            |h| == store.routeCurrentId - 1
            && (forall k :: 0 <= k < |h| ==> h[k].Details? && h[k].route == store.AllRoutes()[k])
            && forall k :: 0 <= k < |h| ==>
                 h[k].route.id >= 1 && h[k] == RouteDetails(store, NatToString(h[k].route.id))
  {
    var h := History(store);
    var routes := store.AllRoutes();
    forall k | 0 <= k < |h|
      ensures h[k].route.id >= 1 && h[k] == RouteDetails(store, NatToString(h[k].route.id))
    {
      StoredRoute(store, routes[k]);
      ReadsBack(store, routes[k].id, routes[k], store.AddressesByRouteId(routes[k].id));
    }
  }

  /** A listed route sits under its own id. */
  lemma StoredRoute(store: MemStorage, route: Route)
    requires store.Valid() && route in store.AllRoutes()
    ensures 1 <= route.id < store.routeCurrentId && store.routes[route.id] == route
  {
    assert route in multiset(store.AllRoutes());
    var all := store.AllRouteValues();
    var k :| 0 <= k < |all| && all[k] == route;
  }

  // ------------------------------------------------------ notifications

  const NotifiedMessage := "LINE通知已發送"

  /** What the notification handler answers. */
  datatype NotifyReply = Notified(message: string) | NotifyRefused(status: int, message: string)

  /** `storage.getRoute(routeId)` on a JSON number: only a whole number can
      equal a stored key. */
  function RouteKey(routeId: real): (k: Option<int>)
    ensures k.Some? <==> routeId.Floor as real == routeId
    ensures k.Some? ==> k.value as real == routeId
  {
    if routeId.Floor as real == routeId then Some(routeId.Floor) else None
  }

  /** `POST /api/send-line-notification`. A body the schema refuses is
      answered 400; a route id that names no route, or a recipient id
      whose `parseInt` names no recipient, is answered 404, and nothing
      changes. Otherwise the message goes out, and whatever the push gave,
      the route is marked notified and the answer is success. */
  method SendNotification(store: MemStorage, body: Json, channelAccessToken: string, push: PushRequest -> PushOutcome)
    returns (reply: NotifyReply, notificationResult: Option<bool>)
    requires store.Valid() && store.StopsHaveRoutes()
    modifies store
    ensures store.Valid() && store.StopsHaveRoutes()
    ensures ParseLineNotification(body).None? ==>
              reply == NotifyRefused(400, InvalidInputMessage) && notificationResult.None? && unchanged(store)
    ensures ParseLineNotification(body).Some? ==>
              var request := ParseLineNotification(body).value;
              var id := RouteKey(request.routeId);
              var recipientId := ParseInt(request.recipientId);
              if id.None? || !(1 <= id.value < old(store.routeCurrentId)) then
                reply == NotifyRefused(404, RouteNotFoundMessage) && notificationResult.None? && unchanged(store)
              else if recipientId.None? || !(1 <= recipientId.value < old(store.lineSettingsCurrentId)) then
                reply == NotifyRefused(404, RecipientNotFoundMessage) && notificationResult.None? && unchanged(store)
              else
                var route := old(store.routes)[id.value];
                reply == Notified(NotifiedMessage)
                && notificationResult == Some(SendLineNotification(route, old(store.AddressesByRouteId(id.value)),
                                                                   old(store.lineSettings)[recipientId.value],
                                                                   request.message, channelAccessToken, push))
                && store.routes == old(store.routes)[id.value := route.(lineNotificationSent := Some(true))]
                && store.addresses == old(store.addresses) && store.lineSettings == old(store.lineSettings)
                && store.users == old(store.users)
                && store.userCurrentId == old(store.userCurrentId) && store.addressCurrentId == old(store.addressCurrentId)
                && store.routeCurrentId == old(store.routeCurrentId)
                && store.lineSettingsCurrentId == old(store.lineSettingsCurrentId)
  {
    notificationResult := None;
    var validatedData := ParseLineNotification(body);
    if validatedData.None? {
      return NotifyRefused(400, InvalidInputMessage), None;
    }
    var id := RouteKey(validatedData.value.routeId);
    var route := if id.Some? then store.GetRoute(id.value) else None;
    if route.None? {
      return NotifyRefused(404, RouteNotFoundMessage), None;
    }
    var recipientId := ParseInt(validatedData.value.recipientId);
    var recipient := if recipientId.Some? then store.LineSettingsById(recipientId.value) else None;
    if recipient.None? {
      return NotifyRefused(404, RecipientNotFoundMessage), None;
    }
    var addresses := store.AddressesByRouteId(route.value.id);
    var sent := SendLineNotification(route.value, addresses, recipient.value, validatedData.value.message,
                                     channelAccessToken, push);
    notificationResult := Some(sent);
    var marked := store.UpdateRouteNotificationStatus(route.value.id, true);
    reply := Notified(NotifiedMessage);
  }
}
