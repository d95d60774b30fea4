/** `optimizeRoute`: picks the origin, destination and waypoints from the
    stops, asks the Directions service (a function parameter here) for a
    route, and renders the summed legs as a distance and a duration; a
    missing key, a refused request or a failure gives a made-up summary
    instead. */
module RouteOptimization {
  import opened Wrappers
  import opened Text
  import opened Schema
  import opened StopOrder

  /** `${x}` for a nullable column: null renders as `null`. */
  function ColumnText(o: Option<string>): string {
    if o.Some? then o.value else "null"
  }

  /** `${stop.lat},${stop.lng}`. */
  function CoordText(a: Address): string {
    ColumnText(a.lat) + "," + ColumnText(a.lng)
  }

  function CoordTexts(xs: seq<Address>): (ts: seq<string>)
    ensures |ts| == |xs|
    ensures forall k :: 0 <= k < |xs| ==> ts[k] == CoordText(xs[k])
  {
    if xs == [] then [] else [CoordText(xs[0])] + CoordTexts(xs[1..])
  }

  /** `addresses.filter(addr => !addr.isStartPoint && !addr.isEndPoint)`. */
  function Unflagged(xs: seq<Address>): (r: seq<Address>)
    ensures |r| <= |xs|
  {
    if xs == [] then [] else (if !IsStart(xs[0]) && !IsEnd(xs[0]) then [xs[0]] else []) + Unflagged(xs[1..])
  }

  /** The unflagged stops are exactly the stops flagged neither start nor
      end. */
  lemma {:induction false} UnflaggedMember(xs: seq<Address>, a: Address)
    ensures a in Unflagged(xs) <==> a in xs && !IsStart(a) && !IsEnd(a)
  {
    if xs != [] {
      UnflaggedMember(xs[1..], a);
      assert xs == [xs[0]] + xs[1..];
    }
  }

  /** With no stop flagged, filtering keeps the whole list. */
  lemma {:induction false} UnflaggedOfUnflagged(xs: seq<Address>)
    requires forall k :: 0 <= k < |xs| ==> !IsStart(xs[k]) && !IsEnd(xs[k])
    ensures Unflagged(xs) == xs
  {
    if xs != [] {
      UnflaggedOfUnflagged(xs[1..]);
    }
  }

  datatype StopSelection = StopSelection(start: Address, end: Address, waypoints: seq<Address>)

  /** Origin, destination and waypoints of the request. */
  function SelectStops(addresses: seq<Address>): (s: StopSelection)
    requires addresses != []
    ensures s.start in addresses && s.end in addresses
    ensures forall w :: w in s.waypoints ==> w in addresses
  {
    var startAddress := FirstStart(addresses);
    var endAddress := FirstEnd(addresses);
    var waypointAddresses := Unflagged(addresses);
    var start := if startAddress.Some? then startAddress.value else addresses[0];
    var end := if endAddress.Some? then endAddress.value else addresses[|addresses| - 1];
    var waypoints :=
      if |waypointAddresses| > 0 then waypointAddresses
      else if |addresses| > 2 then addresses[1..|addresses| - 1]
      else [];
    assert forall w :: w in waypointAddresses ==> w in addresses by {
      forall w ensures w in waypointAddresses ==> w in addresses {
        UnflaggedMember(addresses, w);
      }
    }
    StopSelection(start, end, waypoints)
  }

  /** The origin is the first stop flagged start, or the first stop when
      none is; the destination is the first stop flagged end, or the last
      stop. */
  lemma SelectEnds(addresses: seq<Address>)
    requires addresses != []
    ensures (exists i :: 0 <= i < |addresses| && IsStart(addresses[i])) ==>
              IsStart(SelectStops(addresses).start)
              && exists i :: 0 <= i < |addresses| && addresses[i] == SelectStops(addresses).start
                             && forall j :: 0 <= j < i ==> !IsStart(addresses[j])
    ensures (forall i :: 0 <= i < |addresses| ==> !IsStart(addresses[i])) ==>
              SelectStops(addresses).start == addresses[0]
    ensures (exists i :: 0 <= i < |addresses| && IsEnd(addresses[i])) ==>
              IsEnd(SelectStops(addresses).end)
              && exists i :: 0 <= i < |addresses| && addresses[i] == SelectStops(addresses).end
                             && forall j :: 0 <= j < i ==> !IsEnd(addresses[j])
    ensures (forall i :: 0 <= i < |addresses| ==> !IsEnd(addresses[i])) ==>
              SelectStops(addresses).end == addresses[|addresses| - 1]
  {
  }

  /** Waypoints are the stops flagged neither start nor end when there are
      any; otherwise the stops strictly between the first and the last, and
      none for one or two stops. */
  lemma SelectWaypoints(addresses: seq<Address>)
    requires addresses != []
    ensures (exists i :: 0 <= i < |addresses| && !IsStart(addresses[i]) && !IsEnd(addresses[i])) ==>
              SelectStops(addresses).waypoints == Unflagged(addresses)
    ensures (forall i :: 0 <= i < |addresses| ==> IsStart(addresses[i]) || IsEnd(addresses[i])) ==>
              SelectStops(addresses).waypoints == (if |addresses| > 2 then addresses[1..|addresses| - 1] else [])
  {
    if exists i :: 0 <= i < |addresses| && !IsStart(addresses[i]) && !IsEnd(addresses[i]) {
      var i :| 0 <= i < |addresses| && !IsStart(addresses[i]) && !IsEnd(addresses[i]);
      UnflaggedMember(addresses, addresses[i]);
    } else {
      if Unflagged(addresses) != [] {
        UnflaggedMember(addresses, Unflagged(addresses)[0]);
      }
    }
  }

  /** A list laid out as the manual planner stores it (start first, end
      last, the stops between flagged neither) yields its first stop, its
      last stop and the stops between them. */
  lemma SelectStartInteriorEnd(addresses: seq<Address>)
    requires |addresses| >= 2
    requires IsStart(addresses[0]) && !IsEnd(addresses[0])
    requires IsEnd(addresses[|addresses| - 1]) && !IsStart(addresses[|addresses| - 1])
    requires forall k :: 0 < k < |addresses| - 1 ==> !IsStart(addresses[k]) && !IsEnd(addresses[k])
    ensures SelectStops(addresses) ==
              StopSelection(addresses[0], addresses[|addresses| - 1], addresses[1..|addresses| - 1])
  {
    var n := |addresses|;
    var interior := addresses[1..n - 1];
    UnflaggedOfUnflagged(interior);
    assert addresses == [addresses[0]] + interior + [addresses[n - 1]];
    assert Unflagged(addresses) == Unflagged(addresses[1..]);
    UnflaggedAppend(interior, addresses[n - 1]);
    assert addresses[1..] == interior + [addresses[n - 1]];
    SelectWaypoints(addresses);
  }

  lemma {:induction false} UnflaggedAppend(xs: seq<Address>, a: Address)
    requires IsStart(a) || IsEnd(a)
    ensures Unflagged(xs + [a]) == Unflagged(xs)
  {
    if xs != [] {
      assert (xs + [a])[1..] == xs[1..] + [a];
      UnflaggedAppend(xs[1..], a);
    } else {
      assert Unflagged([a][1..]) == [];
    }
  }

  const WaypointsPrefix := "optimize:true|"

  /** A list joined after a prefix reads back from behind the prefix. */
  lemma SplitAfterPrefix(s: string, prefix: string, parts: seq<string>, sep: char)
    requires s == prefix + Join(parts, sep)
    requires |parts| >= 1
    requires forall k :: 0 <= k < |parts| ==> sep !in parts[k]
    ensures Split(s[|prefix|..], sep) == parts
  {
    assert s[|prefix|..] == Join(parts, sep);
    SplitJoin(parts, sep);
  }

  /** The `waypoints` request parameter: absent when there are no
      waypoints, else the prefix and the coordinates joined by `|`. */
  function WaypointsParam(waypoints: seq<Address>): (p: Option<string>)
    ensures p.None? <==> waypoints == []
    ensures p.Some? ==> StartsWith(p.value, WaypointsPrefix)
  {
    if |waypoints| > 0 then Some(WaypointsPrefix + Join(CoordTexts(waypoints), '|')) else None
  }

  /** When no coordinate holds `|`, the parameter reads back into the
      waypoints' coordinates, in order. */
  lemma WaypointsParamReadsBack(waypoints: seq<Address>)
    requires waypoints != []
    requires forall k :: 0 <= k < |CoordTexts(waypoints)| ==> '|' !in CoordTexts(waypoints)[k]
    ensures Split(WaypointsParam(waypoints).value[|WaypointsPrefix|..], '|') == CoordTexts(waypoints)
  {
    var coords := CoordTexts(waypoints);
    var param := WaypointsPrefix + Join(coords, '|');
    assert WaypointsParam(waypoints) == Some(param);
    SplitAfterPrefix(param, WaypointsPrefix, coords, '|');
  }

  /** The query of the Directions request. */
  datatype DirectionsRequest = DirectionsRequest(
    origin: string, destination: string, waypoints: Option<string>,
    key: string, language: string, units: string)

  datatype Leg = Leg(distanceMeters: nat, durationSeconds: nat)
  datatype DirRoute = DirRoute(legs: seq<Leg>)

  /** What the Directions call produced: a reply, or an exception. */
  datatype DirectionsReply = Failure | Reply(status: string, routes: seq<DirRoute>)

  function RequestFor(addresses: seq<Address>, apiKey: string): DirectionsRequest
    requires addresses != []
  {
    var stops := SelectStops(addresses);
    DirectionsRequest(CoordText(stops.start), CoordText(stops.end), WaypointsParam(stops.waypoints),
                      apiKey, "zh-TW", "metric")
  }

  function TotalMeters(legs: seq<Leg>): nat {
    if legs == [] then 0 else TotalMeters(legs[..|legs| - 1]) + legs[|legs| - 1].distanceMeters
  }

  function TotalSeconds(legs: seq<Leg>): nat {
    if legs == [] then 0 else TotalSeconds(legs[..|legs| - 1]) + legs[|legs| - 1].durationSeconds
  }

  /** Totals add up over consecutive runs of legs. */
  lemma {:induction false} TotalsAppend(a: seq<Leg>, b: seq<Leg>)
    ensures TotalMeters(a + b) == TotalMeters(a) + TotalMeters(b)
    ensures TotalSeconds(a + b) == TotalSeconds(a) + TotalSeconds(b)
  {
    if b != [] {
      TotalsAppend(a, b[..|b| - 1]);
      assert (a + b)[..|a + b| - 1] == a + b[..|b| - 1];
    } else {
      assert a + b == a;
    }
  }

  /** The loop over `route.legs` that sums metres and seconds. */
  method SumLegs(legs: seq<Leg>) returns (totalDistance: nat, totalDuration: nat)
    ensures totalDistance == TotalMeters(legs) && totalDuration == TotalSeconds(legs)
  {
    totalDistance := 0;
    totalDuration := 0;
    for i := 0 to |legs|
      invariant totalDistance == TotalMeters(legs[..i])
      invariant totalDuration == TotalSeconds(legs[..i])
    {
      assert legs[..i + 1][..i] == legs[..i];
      totalDistance := totalDistance + legs[i].distanceMeters;
      totalDuration := totalDuration + legs[i].durationSeconds;
    }
    assert legs[..|legs|] == legs;
  }

  /** `(meters / 1000).toFixed(1)` as a count of tenths of a kilometre,
      rounding halves up: the nearest tenth. */
  function Tenths(meters: nat): (t: nat)
    ensures 100 * t <= meters + 50 < 100 * t + 100
  {
    (meters + 50) / 100
  }

  /** `Math.ceil(seconds / 60)`: the fewest whole minutes covering the
      time. */
  function CeilMinutes(seconds: nat): (m: nat)
    ensures 60 * m >= seconds && (m == 0 || 60 * (m - 1) < seconds)
  {
    (seconds + 59) / 60
  }

  const KmSuffix := " 公里"
  const MinutesSuffix := " 分鐘"

  function DistanceText(meters: nat): (s: string)
    ensures |s| >= |KmSuffix| + 3
  {
    var t := Tenths(meters);
    NatToString(t / 10) + "." + [DigitChar(t % 10)] + KmSuffix
  }

  function DurationText(seconds: nat): (s: string)
    ensures |s| >= |MinutesSuffix| + 1
  {
    NatToString(CeilMinutes(seconds)) + MinutesSuffix
  }

  /** The distance text reads back into the rounded tenths. */
  lemma DistanceTextReadsBack(meters: nat)
    ensures var s := DistanceText(meters);
            AllDigits(s[..|s| - 5]) && s[|s| - 5] == '.' && IsDigit(s[|s| - 4])
            && s[|s| - 3..] == KmSuffix
            && DigitsValue(s[..|s| - 5]) * 10 + (s[|s| - 4] as int - '0' as int) == Tenths(meters)
  {
    var t := Tenths(meters);
    var s := DistanceText(meters);
    var whole := NatToString(t / 10);
    assert s == whole + "." + [DigitChar(t % 10)] + KmSuffix;
    assert s[..|s| - 5] == whole;
    NatToStringRoundTrip(t / 10);
  }

  /** The duration text reads back into the rounded-up minutes. */
  lemma DurationTextReadsBack(seconds: nat)
    ensures var s := DurationText(seconds);
            AllDigits(s[..|s| - 3]) && s[|s| - 3..] == MinutesSuffix
            && DigitsValue(s[..|s| - 3]) == CeilMinutes(seconds)
  {
    var s := DurationText(seconds);
    assert s[..|s| - 3] == NatToString(CeilMinutes(seconds));
    NatToStringRoundTrip(CeilMinutes(seconds));
  }

  datatype OptimizedRoute = OptimizedRoute(distance: string, duration: string)

  function MeasuredRoute(meters: nat, seconds: nat): OptimizedRoute {
    OptimizedRoute(DistanceText(meters), DurationText(seconds))
  }

  function FallbackRoute(km: nat, minutes: nat): OptimizedRoute {
    OptimizedRoute(NatToString(km) + KmSuffix, NatToString(minutes) + MinutesSuffix)
  }

  /** A made-up summary: a whole number of kilometres in 5..24 and of
      minutes in 10..39. */
  ghost predicate IsFallback(r: OptimizedRoute) {
    exists km: nat, minutes: nat :: 5 <= km <= 24 && 10 <= minutes <= 39 && r == FallbackRoute(km, minutes)
  }

  /** A made-up distance has no decimal point and a measured one has, so
      the two never coincide. */
  lemma FallbackIsNotMeasured(km: nat, minutes: nat, meters: nat, seconds: nat)
    ensures FallbackRoute(km, minutes) != MeasuredRoute(meters, seconds)
  {
    var f := FallbackRoute(km, minutes).distance;
    var m := MeasuredRoute(meters, seconds).distance;
    var whole := NatToString(Tenths(meters) / 10);
    assert m[|whole|] == '.';
    assert forall k :: 0 <= k < |f| ==> f[k] != '.' by {
      assert f == NatToString(km) + KmSuffix;
      forall k | 0 <= k < |f| ensures f[k] != '.' {
        if k < |NatToString(km)| {
          assert IsDigit(NatToString(km)[k]);
        }
      }
    }
  }

  /** `Math.floor(Math.random() * 20) + 5` and `... * 30) + 10`: some
      values in those ranges. */
  method Fallback() returns (r: OptimizedRoute)
    ensures IsFallback(r)
  {
    var km: nat :| 5 <= km <= 24;
    var minutes: nat :| 10 <= minutes <= 39;
    r := FallbackRoute(km, minutes);
  }

  /** The legs whose totals are reported: those of the first route of an
      `OK` reply to the request for these stops with this key. No key, no
      stops (reading `start.lat` of an undefined start throws), a failed
      call or a refusal give none. */
  function MeasuredLegs(addresses: seq<Address>, apiKey: string,
                        directions: DirectionsRequest -> DirectionsReply): Option<seq<Leg>>
  {
    if apiKey == "" || addresses == [] then None
    else
      var reply := directions(RequestFor(addresses, apiKey));
      if reply.Reply? && reply.status == "OK" && |reply.routes| > 0 then Some(reply.routes[0].legs)
      else None
  }

  /** `optimizeRoute(addresses)` with the key and the Directions service as
      parameters: the measured totals when the service answers, a fallback
      otherwise; it never fails. */
  method OptimizeRoute(addresses: seq<Address>, apiKey: string,
                       directions: DirectionsRequest -> DirectionsReply) returns (r: OptimizedRoute)
    ensures MeasuredLegs(addresses, apiKey, directions).Some? ==>
              var legs := MeasuredLegs(addresses, apiKey, directions).value;
              r == MeasuredRoute(TotalMeters(legs), TotalSeconds(legs))
    ensures MeasuredLegs(addresses, apiKey, directions).None? ==> IsFallback(r)
  {
    if apiKey == "" {
      r := Fallback();
      return;
    }
    if |addresses| == 0 {
      r := Fallback();
      return;
    }
    var response := directions(RequestFor(addresses, apiKey));
    if response.Reply? && response.status == "OK" && |response.routes| > 0 {
      var totalDistance, totalDuration := SumLegs(response.routes[0].legs);
      r := MeasuredRoute(totalDistance, totalDuration);
    } else {
      r := Fallback();
    }
  }
}
