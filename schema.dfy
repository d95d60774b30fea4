/** The record shapes of the tables (users, addresses, routes, line
    settings), their insert shapes, the column defaults the tables declare,
    and the request schemas as parsers from JSON bodies. Nullable columns
    are `Option`s; a record holds exactly what was inserted plus the fields
    the store assigns. */
module Schema {
  import opened Wrappers
  import opened Text

  // ---------------------------------------------------------------- tables

  datatype User = User(id: int, username: string, password: string)

  /** A user as inserted: no `id`. */
  datatype InsertUser = InsertUser(username: string, password: string)

  /** One stop of a route. `lat`/`lng` stay null until geocoded;
      `sequence` orders the interior stops. */
  datatype Address = Address(
    id: int,
    address: string,
    lat: Option<string>,
    lng: Option<string>,
    note: Option<string>,
    isStartPoint: Option<bool>,
    isEndPoint: Option<bool>,
    routeId: int,
    sequence: Option<int>)

  /** A stop as inserted: every column but the store-assigned `id`. */
  datatype InsertAddress = InsertAddress(
    address: string,
    lat: Option<string>,
    lng: Option<string>,
    note: Option<string>,
    isStartPoint: Option<bool>,
    isEndPoint: Option<bool>,
    routeId: int,
    sequence: Option<int>)

  /** One planning outcome. `createdAt` is an abstract clock reading. */
  datatype Route = Route(
    id: int,
    name: string,
    distance: Option<string>,
    duration: Option<string>,
    mapsUrl: Option<string>,
    createdAt: int,
    lineNotificationSent: Option<bool>)

  /** A route as inserted: neither `id` nor `createdAt`. */
  datatype InsertRoute = InsertRoute(
    name: string,
    distance: Option<string>,
    duration: Option<string>,
    mapsUrl: Option<string>,
    lineNotificationSent: Option<bool>)

  /** A LINE recipient. */
  datatype LineSettings = LineSettings(
    id: int,
    recipientName: string,
    recipientId: string,
    isActive: Option<bool>)

  datatype InsertLineSettings = InsertLineSettings(
    recipientName: string,
    recipientId: string,
    isActive: Option<bool>)

  /** `{ ...insert, id }`. */
  function UserRecord(ins: InsertUser, id: int): (u: User)
    ensures u.id == id && InsertOfUser(u) == ins
  {
    User(id, ins.username, ins.password)
  }

  function InsertOfUser(u: User): InsertUser {
    InsertUser(u.username, u.password)
  }

  /** `{ ...insert, id }`: the inserted fields plus the assigned id. */
  function AddressRecord(ins: InsertAddress, id: int): (a: Address)
    ensures a.id == id && InsertOfAddress(a) == ins
  {
    Address(id, ins.address, ins.lat, ins.lng, ins.note, ins.isStartPoint, ins.isEndPoint,
            ins.routeId, ins.sequence)
  }

  /** The insert shape of a stored stop: everything but `id`. */
  function InsertOfAddress(a: Address): InsertAddress {
    InsertAddress(a.address, a.lat, a.lng, a.note, a.isStartPoint, a.isEndPoint, a.routeId, a.sequence)
  }

  /** A stored stop is its insert shape plus its id, nothing else. */
  lemma AddressRecordOfInsert(a: Address)
    ensures AddressRecord(InsertOfAddress(a), a.id) == a
  {
  }

  /** `{ ...insert, id, createdAt }`. */
  function RouteRecord(ins: InsertRoute, id: int, createdAt: int): (r: Route)
    ensures r.id == id && r.createdAt == createdAt && InsertOfRoute(r) == ins
  {
    Route(id, ins.name, ins.distance, ins.duration, ins.mapsUrl, createdAt, ins.lineNotificationSent)
  }

  /** The insert shape of a stored route: everything but `id` and `createdAt`. */
  function InsertOfRoute(r: Route): InsertRoute {
    InsertRoute(r.name, r.distance, r.duration, r.mapsUrl, r.lineNotificationSent)
  }

  lemma RouteRecordOfInsert(r: Route)
    ensures RouteRecord(InsertOfRoute(r), r.id, r.createdAt) == r
  {
  }

  function LineSettingsRecord(ins: InsertLineSettings, id: int): (s: LineSettings)
    ensures s.id == id && InsertOfLineSettings(s) == ins
  {
    LineSettings(id, ins.recipientName, ins.recipientId, ins.isActive)
  }

  function InsertOfLineSettings(s: LineSettings): InsertLineSettings {
    InsertLineSettings(s.recipientName, s.recipientId, s.isActive)
  }

  // ------------------------------------------------------- column defaults

  /** What the table fills in for absent stop columns: both role flags
      default to false; present values are kept. */
  function AddressColumnDefaults(a: Address): (r: Address)
    ensures r.isStartPoint.Some? && r.isEndPoint.Some?
    ensures a.isStartPoint.Some? ==> r.isStartPoint == a.isStartPoint
    ensures a.isStartPoint.None? ==> r.isStartPoint == Some(false)
    ensures a.isEndPoint.Some? ==> r.isEndPoint == a.isEndPoint
    ensures a.isEndPoint.None? ==> r.isEndPoint == Some(false)
    ensures r == a.(isStartPoint := r.isStartPoint, isEndPoint := r.isEndPoint)
  {
    a.(isStartPoint := Some(a.isStartPoint.GetOr(false)), isEndPoint := Some(a.isEndPoint.GetOr(false)))
  }

  /** What the table fills in for an absent notification flag: false. */
  function RouteColumnDefaults(r: Route): (d: Route)
    ensures d.lineNotificationSent.Some?
    ensures r.lineNotificationSent.Some? ==> d.lineNotificationSent == r.lineNotificationSent
    ensures r.lineNotificationSent.None? ==> d.lineNotificationSent == Some(false)
    ensures d == r.(lineNotificationSent := d.lineNotificationSent)
  {
    r.(lineNotificationSent := Some(r.lineNotificationSent.GetOr(false)))
  }

  /** What the table fills in for an absent `isActive`: true. */
  function LineSettingsColumnDefaults(s: LineSettings): (d: LineSettings)
    ensures d.isActive.Some?
    ensures s.isActive.Some? ==> d.isActive == s.isActive
    ensures s.isActive.None? ==> d.isActive == Some(true)
    ensures d == s.(isActive := d.isActive)
  {
    s.(isActive := Some(s.isActive.GetOr(true)))
  }

  // ------------------------------------------------------ request schemas

  /** A JSON value as `express.json()` hands it over. */
  datatype Json =
    | JNull
    | JBool(b: bool)
    | JNum(n: real)
    | JStr(s: string)
    | JArr(items: seq<Json>)
    | JObj(fields: seq<(string, Json)>)

  /** The member `key` of an object; of duplicated keys the last one wins,
      as in `JSON.parse`. */
  function Member(fields: seq<(string, Json)>, key: string): (m: Option<Json>)
    ensures m.Some? ==> (key, m.value) in fields
    ensures m.None? ==> forall k :: 0 <= k < |fields| ==> fields[k].0 != key
  {
    if fields == [] then None
    else if fields[|fields| - 1].0 == key then Some(fields[|fields| - 1].1)
    else Member(fields[..|fields| - 1], key)
  }

  /** `z.string().min(1)`: a string of length at least one (the length is
      all it looks at; white space counts). */
  function RequiredText(m: Option<Json>): Option<string> {
    if m.Some? && m.value.JStr? && |m.value.s| >= 1 then Some(m.value.s) else None
  }

  /** `z.string().optional()`: absent, or a string. The outer `None` means
      the value is rejected. */
  function OptionalText(m: Option<Json>): Option<Option<string>> {
    if m.None? then Some(None)
    else if m.value.JStr? then Some(Some(m.value.s))
    else None
  }

  datatype PointInput = PointInput(address: string, note: Option<string>)

  /** The manual planning request. */
  datatype AddressInput = AddressInput(startPoint: PointInput, waypoints: seq<PointInput>, endPoint: PointInput)

  /** The notification request. */
  datatype LineNotification = LineNotification(routeId: real, recipientId: string, message: Option<string>)

  /** A row of the CSV upload schema. */
  datatype CsvAddress = CsvAddress(address: string, note: Option<string>, isStartPoint: Option<bool>, isEndPoint: Option<bool>)

  /** `{ address: z.string().min(1), note: z.string().optional() }`. */
  function ParsePoint(j: Json): Option<PointInput> {
    if !j.JObj? then None
    else
      var address := RequiredText(Member(j.fields, "address"));
      var note := OptionalText(Member(j.fields, "note"));
      if address.None? || note.None? then None
      else Some(PointInput(address.value, note.value))
  }

  function ParsePoints(items: seq<Json>): Option<seq<PointInput>> {
    if items == [] then Some([])
    else
      var first := ParsePoint(items[0]);
      var rest := ParsePoints(items[1..]);
      if first.None? || rest.None? then None
      else Some([first.value] + rest.value)
  }

  /** `addressInputSchema.parse(body)`; `None` is a `ZodError`. */
  function ParseAddressInput(body: Json): Option<AddressInput> {
    if !body.JObj? then None
    else
      var start := Member(body.fields, "startPoint");
      var waypoints := Member(body.fields, "waypoints");
      var end := Member(body.fields, "endPoint");
      if start.None? || waypoints.None? || end.None? || !waypoints.value.JArr? then None
      else
        var s := ParsePoint(start.value);
        var w := ParsePoints(waypoints.value.items);
        var e := ParsePoint(end.value);
        if s.None? || w.None? || e.None? then None
        else Some(AddressInput(s.value, w.value, e.value))
  }

  /** `lineNotificationSchema.parse(body)`. */
  function ParseLineNotification(body: Json): Option<LineNotification> {
    if !body.JObj? then None
    else
      var routeId := Member(body.fields, "routeId");
      var recipient := RequiredText(Member(body.fields, "recipientId"));
      var message := OptionalText(Member(body.fields, "message"));
      if routeId.None? || !routeId.value.JNum? || recipient.None? || message.None? then None
      else Some(LineNotification(routeId.value.n, recipient.value, message.value))
  }

  /** A manual request is acceptable exactly when the start, every waypoint
      and the end have a non-empty address; notes are free and the list of
      waypoints may be empty. */
  predicate ValidAddressInput(x: AddressInput) {
    |x.startPoint.address| >= 1
    && (forall k :: 0 <= k < |x.waypoints| ==> |x.waypoints[k].address| >= 1)
    && |x.endPoint.address| >= 1
  }

  /** `csvUploadSchema`: every row has a non-empty address; notes and
      role flags are optional. */
  predicate ValidCsvUpload(rows: seq<CsvAddress>) {
    forall k :: 0 <= k < |rows| ==> |rows[k].address| >= 1
  }

  /** A notification request needs a number and a non-empty recipient. */
  predicate ValidLineNotification(x: LineNotification) {
    |x.recipientId| >= 1
  }

  // JSON bodies a client sends for typed values: optional members absent
  // when `None`.

  function PointJson(p: PointInput): Json {
    JObj([("address", JStr(p.address))] + (if p.note.Some? then [("note", JStr(p.note.value))] else []))
  }

  function PointsJson(ps: seq<PointInput>): (js: seq<Json>)
    ensures |js| == |ps|
  {
    if ps == [] then [] else [PointJson(ps[0])] + PointsJson(ps[1..])
  }

  function AddressInputJson(x: AddressInput): Json {
    JObj([("startPoint", PointJson(x.startPoint)), ("waypoints", JArr(PointsJson(x.waypoints))),
          ("endPoint", PointJson(x.endPoint))])
  }

  function LineNotificationJson(x: LineNotification): Json {
    JObj([("routeId", JNum(x.routeId)), ("recipientId", JStr(x.recipientId))]
         + (if x.message.Some? then [("message", JStr(x.message.value))] else []))
  }

  lemma ParsePointJson(p: PointInput)
    ensures ParsePoint(PointJson(p)) == if |p.address| >= 1 then Some(p) else None
  {
    var fs := PointJson(p).fields;
    assert Member(fs, "address") == Some(JStr(p.address));
  }

  lemma {:induction false} ParsePointsJson(ps: seq<PointInput>)
    ensures ParsePoints(PointsJson(ps))
            == if forall k :: 0 <= k < |ps| ==> |ps[k].address| >= 1 then Some(ps) else None
  {
    if ps != [] {
      ParsePointJson(ps[0]);
      ParsePointsJson(ps[1..]);
      assert PointsJson(ps)[1..] == PointsJson(ps[1..]);
      if forall k :: 0 <= k < |ps| ==> |ps[k].address| >= 1 {
        assert [ps[0]] + ps[1..] == ps;
      } else {
        var k :| 0 <= k < |ps| && |ps[k].address| < 1;
        assert k == 0 || |ps[1..][k - 1].address| < 1;
      }
    }
  }

  /** The manual request schema accepts a request exactly when it is valid,
      and then hands it over unchanged. */
  lemma ParseAddressInputJson(x: AddressInput)
    ensures ParseAddressInput(AddressInputJson(x)) == if ValidAddressInput(x) then Some(x) else None
  {
    var fs := AddressInputJson(x).fields;
    assert fs[..2][..1] == [("startPoint", PointJson(x.startPoint))];
    assert Member(fs[..2][..1], "startPoint") == Some(PointJson(x.startPoint));
    assert Member(fs, "startPoint") == Some(PointJson(x.startPoint));
    assert Member(fs, "waypoints") == Some(JArr(PointsJson(x.waypoints)));
    ParsePointJson(x.startPoint);
    ParsePointJson(x.endPoint);
    ParsePointsJson(x.waypoints);
  }

  /** `min(1)` looks at the length only: addresses made of white space
      pass the manual request schema. */
  lemma BlankAddressesPass(x: AddressInput)
    requires |x.startPoint.address| >= 1 && IsBlank(x.startPoint.address)
    requires |x.endPoint.address| >= 1 && IsBlank(x.endPoint.address)
    requires forall k :: 0 <= k < |x.waypoints| ==> |x.waypoints[k].address| >= 1
    ensures ParseAddressInput(AddressInputJson(x)) == Some(x)
  {
    ParseAddressInputJson(x);
  }

  /** The notification schema accepts a request exactly when its recipient
      is non-empty, whatever the number and whether a message is given. */
  lemma ParseLineNotificationJson(x: LineNotification)
    ensures ParseLineNotification(LineNotificationJson(x))
            == if ValidLineNotification(x) then Some(x) else None
  {
    var fs := LineNotificationJson(x).fields;
    var head := [("routeId", JNum(x.routeId)), ("recipientId", JStr(x.recipientId))];
    assert head[..1] == [("routeId", JNum(x.routeId))];
    assert Member(head, "routeId") == Some(JNum(x.routeId));
    assert x.message.Some? ==> fs[..|fs| - 1] == head;
    assert Member(fs, "routeId") == Some(JNum(x.routeId));
    assert Member(fs, "recipientId") == Some(JStr(x.recipientId));
  }

  /** Whatever other members a stop object has, and in whatever order, an
      accepted stop has a non-empty address, taken from its last `address`
      member as `JSON.parse` keeps it. */
  lemma ParsePointSound(j: Json)
    ensures ParsePoint(j).Some? ==>
              && |ParsePoint(j).value.address| >= 1
              && Member(j.fields, "address") == Some(JStr(ParsePoint(j).value.address))
  {
  }

  /** An accepted list of stops has one stop per item, each accepted on
      its own. */
  lemma {:induction false} ParsePointsSound(items: seq<Json>)
    ensures ParsePoints(items).Some? ==>
              && |ParsePoints(items).value| == |items|
              && forall k :: 0 <= k < |items| ==> ParsePoint(items[k]) == Some(ParsePoints(items).value[k])
  {
    if items != [] && ParsePoints(items).Some? {
      ParsePointsSound(items[1..]);
      forall k | 0 <= k < |items|
        ensures ParsePoint(items[k]) == Some(ParsePoints(items).value[k])
      {
        if k > 0 {
          assert items[k] == items[1..][k - 1];
        }
      }
    }
  }

  /** Every body the manual request schema accepts, canonical or not, is a
      valid request. */
  lemma ParseAddressInputSound(body: Json)
    ensures ParseAddressInput(body).Some? ==> ValidAddressInput(ParseAddressInput(body).value)
  {
    if ParseAddressInput(body).Some? {
      var x := ParseAddressInput(body).value;
      var items := Member(body.fields, "waypoints").value.items;
      ParsePointSound(Member(body.fields, "startPoint").value);
      ParsePointSound(Member(body.fields, "endPoint").value);
      ParsePointsSound(items);
      forall k | 0 <= k < |x.waypoints|
        ensures |x.waypoints[k].address| >= 1
      {
        ParsePointSound(items[k]);
      }
    }
  }

  /** Every body the notification schema accepts is a valid request, whose
      number and recipient are the body's last `routeId` and `recipientId`
      members. */
  lemma ParseLineNotificationSound(body: Json)
    ensures ParseLineNotification(body).Some? ==>
              && ValidLineNotification(ParseLineNotification(body).value)
              && Member(body.fields, "routeId") == Some(JNum(ParseLineNotification(body).value.routeId))
              && Member(body.fields, "recipientId") == Some(JStr(ParseLineNotification(body).value.recipientId))
  {
  }

  /** A notification request whose `routeId` is not a number is refused. */
  lemma NonNumericRouteIdRefused(fields: seq<(string, Json)>)
    requires Member(fields, "routeId").Some? && !Member(fields, "routeId").value.JNum?
    ensures ParseLineNotification(JObj(fields)).None?
  {
  }
}
