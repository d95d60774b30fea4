/** `MemStorage`: four maps keyed by auto-incremented ids (users, stops,
    routes, LINE recipients) and the reads and writes over them. A `Map`
    iterates in insertion order and `set` on a present key keeps its
    place, so with ids handed out 1, 2, 3, ... the values of a map are
    listed in ascending id order, which is the order of creation. */
module Storage {
  import opened Wrappers
  import opened Schema
  import opened StopOrder

  /** `Array.from(m.values())` for a map whose keys are 1 .. n-1. */
  function ValuesUpTo<T>(m: map<int, T>, n: int): (vs: seq<T>)
    requires forall id :: 1 <= id < n ==> id in m
    ensures |vs| == if n <= 1 then 0 else n - 1
    ensures forall k :: 0 <= k < |vs| ==> vs[k] == m[k + 1]
    decreases n
  {
    if n <= 1 then [] else ValuesUpTo(m, n - 1) + [m[n - 1]]
  }

  /** Listing after inserting the next id appends its value. */
  lemma ValuesUpToInsert<T>(m: map<int, T>, n: int, v: T)
    requires 1 <= n
    requires forall id :: 1 <= id < n ==> id in m
    ensures ValuesUpTo(m[n := v], n + 1) == ValuesUpTo(m, n) + [v]
  {
    assert ValuesUpTo(m[n := v], n) == ValuesUpTo(m, n);
  }

  /** Listing after replacing a present id replaces that value in place. */
  lemma ValuesUpToUpdate<T>(m: map<int, T>, n: int, id: int, v: T)
    requires 1 <= id < n
    requires forall i :: 1 <= i < n ==> i in m
    ensures ValuesUpTo(m[id := v], n) == ValuesUpTo(m, n)[id - 1 := v]
  {
  }

  /** A value is listed exactly when some id below `n` holds it. */
  lemma ValuesUpToMember<T>(m: map<int, T>, n: int, v: T)
    requires forall id :: 1 <= id < n ==> id in m
    ensures v in ValuesUpTo(m, n) <==> exists id :: 1 <= id < n && m[id] == v
  {
    var vs := ValuesUpTo(m, n);
    if v in vs {
      var k :| 0 <= k < |vs| && vs[k] == v;
      assert m[k + 1] == v;
    }
    if exists id :: 1 <= id < n && m[id] == v {
      var id :| 1 <= id < n && m[id] == v;
      assert vs[id - 1] == v;
    }
  }

  /** For a map keyed by exactly 1 .. n-1, the values it holds are the
      values listed. */
  lemma ValuesOfDenseMap<T>(m: map<int, T>, n: int, v: T)
    requires forall id :: id in m <==> 1 <= id < n
    ensures (exists id :: id in m && m[id] == v) <==> v in ValuesUpTo(m, n)
  {
    ValuesUpToMember(m, n, v);
  }

  /** `.filter(address => address.routeId === routeId)`. */
  function OfRoute(xs: seq<Address>, routeId: int): (r: seq<Address>)
    ensures |r| <= |xs|
    ensures forall a :: a in r <==> a in xs && a.routeId == routeId
  {
    if xs == [] then []
    else OfRoute(xs[..|xs| - 1], routeId) + (if xs[|xs| - 1].routeId == routeId then [xs[|xs| - 1]] else [])
  }

  /** `.filter(setting => setting.isActive)`: the active settings, with the
      input's id order kept. */
  function ActiveOnly(xs: seq<LineSettings>): (r: seq<LineSettings>)
    ensures |r| <= |xs|
    ensures forall s :: s in r <==> s in xs && s.isActive == Some(true)
    ensures (forall i, j :: 0 <= i < j < |xs| ==> xs[i].id < xs[j].id) ==>
              forall i, j :: 0 <= i < j < |r| ==> r[i].id < r[j].id
  {
    if xs == [] then [] else (if xs[0].isActive == Some(true) then [xs[0]] else []) + ActiveOnly(xs[1..])
  }

  /** The sort callback of `getAllRoutes`: newer first. */
  function CompareNewest(a: Route, b: Route): (c: int)
    ensures c > 0 <==> a.createdAt < b.createdAt
  {
    b.createdAt - a.createdAt
  }

  function PlaceRoute(s: seq<Route>, x: Route): (r: seq<Route>)
    ensures |r| == |s| + 1
  {
    if s == [] then [x]
    else if CompareNewest(s[|s| - 1], x) > 0 then PlaceRoute(s[..|s| - 1], x) + [s[|s| - 1]]
    else s + [x]
  }

  /** `routes.sort(CompareNewest)`, a stable sort. */
  function NewestFirst(xs: seq<Route>): (r: seq<Route>)
    ensures |r| == |xs|
  {
    if xs == [] then [] else PlaceRoute(NewestFirst(xs[..|xs| - 1]), xs[|xs| - 1])
  }

  predicate Descending(rs: seq<Route>) {
    forall i, j :: 0 <= i < j < |rs| ==> rs[i].createdAt >= rs[j].createdAt
  }

  /** The routes created at time `t`, in their order in `xs`. */
  function AtTime(xs: seq<Route>, t: int): seq<Route> {
    if xs == [] then []
    else AtTime(xs[..|xs| - 1], t) + (if xs[|xs| - 1].createdAt == t then [xs[|xs| - 1]] else [])
  }

  lemma {:induction false} PlaceRouteMultiset(s: seq<Route>, x: Route)
    ensures multiset(PlaceRoute(s, x)) == multiset(s) + multiset{x}
  {
    if s != [] {
      var init, last := s[..|s| - 1], s[|s| - 1];
      assert s == init + [last];
      if CompareNewest(last, x) > 0 {
        PlaceRouteMultiset(init, x);
      }
    }
  }

  lemma {:induction false} PlaceRouteDescending(s: seq<Route>, x: Route)
    requires Descending(s)
    ensures Descending(PlaceRoute(s, x))
  {
    if s != [] {
      var init, last := s[..|s| - 1], s[|s| - 1];
      if CompareNewest(last, x) > 0 {
        assert Descending(init);
        PlaceRouteDescending(init, x);
        PlaceRouteMultiset(init, x);
        var r := PlaceRoute(init, x);
        forall i | 0 <= i < |r| ensures r[i].createdAt >= last.createdAt {
          assert r[i] in multiset(init) + multiset{x};
        }
      }
    }
  }

  lemma {:induction false} PlaceRouteAtTime(s: seq<Route>, x: Route, t: int)
    ensures AtTime(PlaceRoute(s, x), t) == AtTime(s, t) + (if x.createdAt == t then [x] else [])
  {
    if s != [] {
      var init, last := s[..|s| - 1], s[|s| - 1];
      if CompareNewest(last, x) > 0 {
        PlaceRouteAtTime(init, x, t);
        var r := PlaceRoute(init, x);
        assert (r + [last])[..|r|] == r;
      } else {
        assert (s + [x])[..|s|] == s;
      }
    }
  }

  /** `getAllRoutes` lists every route once, newest first, routes created
      at the same time in creation order. */
  lemma NewestFirstFacts(xs: seq<Route>)
    ensures multiset(NewestFirst(xs)) == multiset(xs)
    ensures Descending(NewestFirst(xs))
    ensures forall t :: AtTime(NewestFirst(xs), t) == AtTime(xs, t)
  {
    NewestFirstMultiset(xs);
    NewestFirstDescending(xs);
    forall t ensures AtTime(NewestFirst(xs), t) == AtTime(xs, t) {
      NewestFirstAtTime(xs, t);
    }
  }

  lemma {:induction false} NewestFirstMultiset(xs: seq<Route>)
    ensures multiset(NewestFirst(xs)) == multiset(xs)
  {
    if xs != [] {
      var init, last := xs[..|xs| - 1], xs[|xs| - 1];
      assert xs == init + [last];
      NewestFirstMultiset(init);
      PlaceRouteMultiset(NewestFirst(init), last);
    }
  }

  lemma {:induction false} NewestFirstDescending(xs: seq<Route>)
    ensures Descending(NewestFirst(xs))
  {
    if xs != [] {
      var init := xs[..|xs| - 1];
      NewestFirstDescending(init);
      PlaceRouteDescending(NewestFirst(init), xs[|xs| - 1]);
    }
  }

  lemma {:induction false} NewestFirstAtTime(xs: seq<Route>, t: int)
    ensures AtTime(NewestFirst(xs), t) == AtTime(xs, t)
  {
    if xs != [] {
      var init, last := xs[..|xs| - 1], xs[|xs| - 1];
      NewestFirstAtTime(init, t);
      PlaceRouteAtTime(NewestFirst(init), last, t);
    }
  }

  /** The names and ids of the three recipients a fresh store holds. */
  const DefaultRecipients: seq<InsertLineSettings> := [
    InsertLineSettings("運輸部門群組", "transport_group_1", Some(true)),
    InsertLineSettings("配送人員", "delivery_staff", Some(true)),
    InsertLineSettings("主管", "managers", Some(true))]

  /** A partial route update: `None` leaves a field as it is, `Some(v)`
      writes `v` (itself possibly null). */
  datatype RoutePatch = RoutePatch(
    name: Option<string>,
    distance: Option<Option<string>>,
    duration: Option<Option<string>>,
    mapsUrl: Option<Option<string>>,
    lineNotificationSent: Option<Option<bool>>)

  const EmptyPatch := RoutePatch(None, None, None, None, None)

  /** `{ ...route, ...patch }`: every supplied field is overwritten, every
      other field, `id` and `createdAt` are kept. */
  function ApplyPatch(route: Route, patch: RoutePatch): (r: Route)
    ensures r.id == route.id && r.createdAt == route.createdAt
    ensures patch.name.Some? ==> r.name == patch.name.value
    ensures patch.name.None? ==> r.name == route.name
    ensures patch.distance.Some? ==> r.distance == patch.distance.value
    ensures patch.distance.None? ==> r.distance == route.distance
    ensures patch.duration.Some? ==> r.duration == patch.duration.value
    ensures patch.duration.None? ==> r.duration == route.duration
    ensures patch.mapsUrl.Some? ==> r.mapsUrl == patch.mapsUrl.value
    ensures patch.mapsUrl.None? ==> r.mapsUrl == route.mapsUrl
    ensures patch.lineNotificationSent.Some? ==> r.lineNotificationSent == patch.lineNotificationSent.value
    ensures patch.lineNotificationSent.None? ==> r.lineNotificationSent == route.lineNotificationSent
  {
    Route(route.id,
          patch.name.GetOr(route.name),
          patch.distance.GetOr(route.distance),
          patch.duration.GetOr(route.duration),
          patch.mapsUrl.GetOr(route.mapsUrl),
          route.createdAt,
          patch.lineNotificationSent.GetOr(route.lineNotificationSent))
  }

  /** `q` applied after `p`: `q`'s fields win. */
  function Then(p: RoutePatch, q: RoutePatch): RoutePatch {
    RoutePatch(
      if q.name.Some? then q.name else p.name,
      if q.distance.Some? then q.distance else p.distance,
      if q.duration.Some? then q.duration else p.duration,
      if q.mapsUrl.Some? then q.mapsUrl else p.mapsUrl,
      if q.lineNotificationSent.Some? then q.lineNotificationSent else p.lineNotificationSent)
  }

  /** An empty patch changes nothing; a patch applied twice acts once; two
      patches in a row act as their merge. */
  lemma PatchLaws(route: Route, p: RoutePatch, q: RoutePatch)
    ensures ApplyPatch(route, EmptyPatch) == route
    ensures ApplyPatch(ApplyPatch(route, p), p) == ApplyPatch(route, p)
    ensures ApplyPatch(ApplyPatch(route, p), q) == ApplyPatch(route, Then(p, q))
  {
  }

  /** Setting the notification status is the patch that writes only that
      field. */
  lemma NotificationStatusIsPatch(route: Route, sent: bool)
    ensures route.(lineNotificationSent := Some(sent))
            == ApplyPatch(route, EmptyPatch.(lineNotificationSent := Some(Some(sent))))
  {
  }

  /** Sorting helper for the store's read of one route's stops. */
  lemma SortCanonicalWhenSingle(xs: seq<Address>)
    ensures SingleRoles(xs) ==> IsCanonicalOrder(xs, Sort(xs))
  {
    if SingleRoles(xs) {
      SortIsCanonical(xs);
    }
  }

  class MemStorage {
    var users: map<int, User>
    var addresses: map<int, Address>
    var routes: map<int, Route>
    var lineSettings: map<int, LineSettings>

    var userCurrentId: int
    var addressCurrentId: int
    var routeCurrentId: int
    var lineSettingsCurrentId: int

    /** Each map holds exactly the ids below its counter, from 1, and each
        record sits under its own id. */
    ghost predicate Valid()
      reads this
    {
      1 <= userCurrentId && 1 <= addressCurrentId && 1 <= routeCurrentId && 1 <= lineSettingsCurrentId
      && (forall id :: id in users <==> 1 <= id < userCurrentId)
      && (forall id :: id in users ==> users[id].id == id)
      && (forall id :: id in addresses <==> 1 <= id < addressCurrentId)
      && (forall id :: id in addresses ==> addresses[id].id == id)
      && (forall id :: id in routes <==> 1 <= id < routeCurrentId)
      && (forall id :: id in routes ==> routes[id].id == id)
      && (forall id :: id in lineSettings <==> 1 <= id < lineSettingsCurrentId)
      && (forall id :: id in lineSettings ==> lineSettings[id].id == id)
    }

    /** Every stop belongs to a route that has been created. */
    ghost predicate StopsHaveRoutes()
      reads this
    {
      forall id :: id in addresses ==> addresses[id].routeId < routeCurrentId
    }

    constructor()
      ensures Valid() && StopsHaveRoutes()
      ensures users == map[] && addresses == map[] && routes == map[]
      ensures userCurrentId == 1 && addressCurrentId == 1 && routeCurrentId == 1
      ensures lineSettingsCurrentId == 4
      ensures AllLineSettings() == [LineSettingsRecord(DefaultRecipients[0], 1),
                                    LineSettingsRecord(DefaultRecipients[1], 2),
                                    LineSettingsRecord(DefaultRecipients[2], 3)]
    {
      users := map[];
      addresses := map[];
      routes := map[];
      lineSettings := map[];
      userCurrentId := 1;
      addressCurrentId := 1;
      routeCurrentId := 1;
      lineSettingsCurrentId := 1;
      new;
      var first := CreateLineSettings(DefaultRecipients[0]);
      var second := CreateLineSettings(DefaultRecipients[1]);
      var third := CreateLineSettings(DefaultRecipients[2]);
    }

    /** Every stored stop, in creation order. */
    function AllAddresses(): seq<Address>
      reads this
      requires Valid()
    {
      ValuesUpTo(addresses, addressCurrentId)
    }

    function AllRouteValues(): seq<Route>
      reads this
      requires Valid()
    {
      ValuesUpTo(routes, routeCurrentId)
    }

    /** `getAllLineSettings()`: every recipient, in creation order. */
    function AllLineSettings(): (r: seq<LineSettings>)
      reads this
      requires Valid()
      ensures |r| == lineSettingsCurrentId - 1
      ensures forall k :: 0 <= k < |r| ==> r[k] == lineSettings[k + 1] && r[k].id == k + 1
    {
      ValuesUpTo(lineSettings, lineSettingsCurrentId)
    }

    /** `getUser(id)`. */
    function GetUser(id: int): (r: Option<User>)
      reads this
      requires Valid()
      ensures r.Some? <==> 1 <= id < userCurrentId
      ensures r.Some? ==> r.value == users[id] && r.value.id == id
    {
      if id in users then Some(users[id]) else None
    }

    /** `getUserByUsername(username)`: the first user, in creation order,
        with that name. */
    function GetUserByUsername(username: string): (r: Option<User>)
      reads this
      requires Valid()
      ensures r.None? ==> forall id :: id in users ==> users[id].username != username
      ensures r.Some? ==> (r.value.id in users && users[r.value.id] == r.value && r.value.username == username
                           && forall id :: id in users && id < r.value.id ==> users[id].username != username)
    {
      FirstNamed(ValuesUpTo(users, userCurrentId), username, 0)
    }

    /** The first user named `username` at or after position `k` of the
        creation-order listing `us` of this store's users. */
    function FirstNamed(us: seq<User>, username: string, k: nat): (r: Option<User>)
      reads this
      requires Valid()
      requires us == ValuesUpTo(users, userCurrentId) && k <= |us|
      requires forall j :: 0 <= j < k ==> us[j].username != username
      ensures r.None? ==> forall id :: id in users ==> users[id].username != username
      ensures r.Some? ==> (r.value.id in users && users[r.value.id] == r.value && r.value.username == username
                           && forall id :: id in users && id < r.value.id ==> users[id].username != username)
      decreases |us| - k
    {
      if k == |us| then
        assert forall id :: id in users ==> users[id] == us[id - 1];
        None
      else if us[k].username == username then
        assert forall id :: id in users && id < us[k].id ==> users[id] == us[id - 1];
        Some(us[k])
      else FirstNamed(us, username, k + 1)
    }

    method CreateUser(insertUser: InsertUser) returns (user: User)
      requires Valid()
      modifies this
      ensures Valid()
      ensures user == UserRecord(insertUser, old(userCurrentId)) && user.id !in old(users)
      ensures users == old(users)[user.id := user] && userCurrentId == old(userCurrentId) + 1
      ensures addresses == old(addresses) && routes == old(routes) && lineSettings == old(lineSettings)
      ensures addressCurrentId == old(addressCurrentId) && routeCurrentId == old(routeCurrentId)
      ensures lineSettingsCurrentId == old(lineSettingsCurrentId)
    {
      var id := userCurrentId;
      userCurrentId := userCurrentId + 1;
      user := UserRecord(insertUser, id);
      users := users[id := user];
    }

    /** `createAddress(insert)`: the stop gets the next id and is listed
        last. */
    method CreateAddress(insertAddress: InsertAddress) returns (address: Address)
      requires Valid()
      modifies this
      ensures Valid()
      ensures address == AddressRecord(insertAddress, old(addressCurrentId)) && address.id !in old(addresses)
      ensures addresses == old(addresses)[address.id := address] && addressCurrentId == old(addressCurrentId) + 1
      ensures AllAddresses() == old(AllAddresses()) + [address]
      ensures users == old(users) && routes == old(routes) && lineSettings == old(lineSettings)
      ensures userCurrentId == old(userCurrentId) && routeCurrentId == old(routeCurrentId)
      ensures lineSettingsCurrentId == old(lineSettingsCurrentId)
      ensures old(StopsHaveRoutes()) && insertAddress.routeId < routeCurrentId ==> StopsHaveRoutes()
    {
      var id := addressCurrentId;
      addressCurrentId := addressCurrentId + 1;
      address := AddressRecord(insertAddress, id);
      ValuesUpToInsert(addresses, id, address);
      addresses := addresses[id := address];
    }

    /** `getAddressesByRouteId(routeId)`: the stops of the route, each once,
        none of another route; in canonical order when at most one of them
        ranks as start and at most one as end. */
    function AddressesByRouteId(routeId: int): (r: seq<Address>)
      reads this
      requires Valid()
      ensures multiset(r) == multiset(OfRoute(AllAddresses(), routeId))
      ensures SingleRoles(OfRoute(AllAddresses(), routeId)) ==> IsCanonicalOrder(OfRoute(AllAddresses(), routeId), r)
    {
      var xs := OfRoute(AllAddresses(), routeId);
      SortPermutes(xs);
      SortCanonicalWhenSingle(xs);
      Sort(xs)
    }

    /** The stops read for a route are exactly the stored stops of that
        route. */
    lemma AddressesByRouteIdMembers(routeId: int, a: Address)
      requires Valid()
      ensures a in AddressesByRouteId(routeId) <==>
                (exists id :: id in addresses && addresses[id] == a) && a.routeId == routeId
    {
      var r := AddressesByRouteId(routeId);
      var xs := OfRoute(AllAddresses(), routeId);
      assert a in r <==> a in multiset(r);
      assert a in xs <==> a in multiset(xs);
      ValuesOfDenseMap(addresses, addressCurrentId, a);
    }

    /** `updateAddressCoordinates(id, lat, lng)`: an unknown id changes
        nothing; otherwise only that stop's `lat` and `lng` change, and it
        keeps its place in the listing. */
    method UpdateAddressCoordinates(id: int, lat: string, lng: string) returns (r: Option<Address>)
      requires Valid()
      modifies this
      ensures Valid()
      ensures id !in old(addresses) ==> r.None? && addresses == old(addresses)
      ensures id in old(addresses) ==>
                r == Some(old(addresses)[id].(lat := Some(lat), lng := Some(lng)))
                && addresses == old(addresses)[id := r.value]
                && AllAddresses() == old(AllAddresses())[id - 1 := r.value]
      ensures users == old(users) && routes == old(routes) && lineSettings == old(lineSettings)
      ensures userCurrentId == old(userCurrentId) && addressCurrentId == old(addressCurrentId)
      ensures routeCurrentId == old(routeCurrentId) && lineSettingsCurrentId == old(lineSettingsCurrentId)
    {
      if id !in addresses {
        return None;
      }
      var updatedAddress := addresses[id].(lat := Some(lat), lng := Some(lng));
      ValuesUpToUpdate(addresses, addressCurrentId, id, updatedAddress);
      addresses := addresses[id := updatedAddress];
      r := Some(updatedAddress);
    }

    /** `createRoute(insert)` at clock reading `now`. */
    method CreateRoute(insertRoute: InsertRoute, now: int) returns (route: Route)
      requires Valid()
      modifies this
      ensures Valid()
      ensures route == RouteRecord(insertRoute, old(routeCurrentId), now) && route.id !in old(routes)
      ensures routes == old(routes)[route.id := route] && routeCurrentId == old(routeCurrentId) + 1
      ensures users == old(users) && addresses == old(addresses) && lineSettings == old(lineSettings)
      ensures userCurrentId == old(userCurrentId) && addressCurrentId == old(addressCurrentId)
      ensures lineSettingsCurrentId == old(lineSettingsCurrentId)
    {
      var id := routeCurrentId;
      routeCurrentId := routeCurrentId + 1;
      route := RouteRecord(insertRoute, id, now);
      routes := routes[id := route];
    }

    /** `getRoute(id)`. */
    function GetRoute(id: int): (r: Option<Route>)
      reads this
      requires Valid()
      ensures r.Some? <==> 1 <= id < routeCurrentId
      ensures r.Some? ==> r.value == routes[id] && r.value.id == id
    {
      if id in routes then Some(routes[id]) else None
    }

    /** `getAllRoutes()`: every route once, newest first, routes created at
        the same time in creation order. */
    function AllRoutes(): (r: seq<Route>)
      reads this
      requires Valid()
      ensures multiset(r) == multiset(AllRouteValues())
      ensures Descending(r)
      ensures forall t :: AtTime(r, t) == AtTime(AllRouteValues(), t)
    {
      NewestFirstFacts(AllRouteValues());
      NewestFirst(AllRouteValues())
    }

    /** `updateRoute(id, patch)`: an unknown id changes nothing; otherwise
        the route becomes the patched route. */
    method UpdateRoute(id: int, routeUpdate: RoutePatch) returns (r: Option<Route>)
      requires Valid()
      modifies this
      ensures Valid()
      ensures id !in old(routes) ==> r.None? && routes == old(routes)
      ensures id in old(routes) ==>
                r == Some(ApplyPatch(old(routes)[id], routeUpdate)) && routes == old(routes)[id := r.value]
      ensures users == old(users) && addresses == old(addresses) && lineSettings == old(lineSettings)
      ensures userCurrentId == old(userCurrentId) && addressCurrentId == old(addressCurrentId)
      ensures routeCurrentId == old(routeCurrentId) && lineSettingsCurrentId == old(lineSettingsCurrentId)
    {
      if id !in routes {
        return None;
      }
      var updatedRoute := ApplyPatch(routes[id], routeUpdate);
      routes := routes[id := updatedRoute];
      r := Some(updatedRoute);
    }

    /** `updateRouteNotificationStatus(id, sent)`: only that route's
        notification flag changes. */
    method UpdateRouteNotificationStatus(id: int, sent: bool) returns (r: Option<Route>)
      requires Valid()
      modifies this
      ensures Valid()
      ensures id !in old(routes) ==> r.None? && routes == old(routes)
      ensures id in old(routes) ==>
                r == Some(old(routes)[id].(lineNotificationSent := Some(sent)))
                && routes == old(routes)[id := r.value]
      ensures users == old(users) && addresses == old(addresses) && lineSettings == old(lineSettings)
      ensures userCurrentId == old(userCurrentId) && addressCurrentId == old(addressCurrentId)
      ensures routeCurrentId == old(routeCurrentId) && lineSettingsCurrentId == old(lineSettingsCurrentId)
    {
      if id !in routes {
        return None;
      }
      var updatedRoute := routes[id].(lineNotificationSent := Some(sent));
      routes := routes[id := updatedRoute];
      r := Some(updatedRoute);
    }

    method CreateLineSettings(insertSettings: InsertLineSettings) returns (settings: LineSettings)
      requires Valid()
      modifies this
      ensures Valid()
      ensures settings == LineSettingsRecord(insertSettings, old(lineSettingsCurrentId))
      ensures settings.id !in old(lineSettings)
      ensures lineSettings == old(lineSettings)[settings.id := settings]
      ensures lineSettingsCurrentId == old(lineSettingsCurrentId) + 1
      ensures AllLineSettings() == old(AllLineSettings()) + [settings]
      ensures users == old(users) && addresses == old(addresses) && routes == old(routes)
      ensures userCurrentId == old(userCurrentId) && addressCurrentId == old(addressCurrentId)
      ensures routeCurrentId == old(routeCurrentId)
    {
      var id := lineSettingsCurrentId;
      lineSettingsCurrentId := lineSettingsCurrentId + 1;
      settings := LineSettingsRecord(insertSettings, id);
      ValuesUpToInsert(lineSettings, id, settings);
      lineSettings := lineSettings[id := settings];
    }

    /** `getActiveLineSettings()`: the recipients whose `isActive` is set,
        in creation order. */
    function ActiveLineSettings(): (r: seq<LineSettings>)
      reads this
      requires Valid()
      ensures forall s :: s in r <==> s in AllLineSettings() && s.isActive == Some(true)
      ensures forall i, j :: 0 <= i < j < |r| ==> r[i].id < r[j].id
    {
      ActiveOnly(AllLineSettings())
    }

    /** `getLineSettingsById(id)`. */
    function LineSettingsById(id: int): (r: Option<LineSettings>)
      reads this
      requires Valid()
      ensures r.Some? <==> 1 <= id < lineSettingsCurrentId
      ensures r.Some? ==> r.value == lineSettings[id] && r.value.id == id
    {
      if id in lineSettings then Some(lineSettings[id]) else None
    }

    /** The recipients of a fresh store are all active. */
    lemma DefaultRecipientsActive()
      requires Valid()
      requires AllLineSettings() == [LineSettingsRecord(DefaultRecipients[0], 1),
                                     LineSettingsRecord(DefaultRecipients[1], 2),
                                     LineSettingsRecord(DefaultRecipients[2], 3)]
      ensures ActiveLineSettings() == AllLineSettings()
    {
      var all := AllLineSettings();
      assert all[1..][1..][1..] == [];
      assert ActiveOnly(all[1..][1..]) == all[1..][1..];
      assert ActiveOnly(all[1..]) == all[1..];
    }
  }
}
