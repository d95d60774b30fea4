/** Google Maps direction links: the server's `generateMapsUrl`, which
    lists the stops in canonical order, and the client's
    `formatGoogleMapsUrl`, which lists them as given. Both append one
    percent-encoded location per stop, each followed by `/`, to the base
    URL; the path reads back into the list of locations. */
module MapsLink {
  import opened Wrappers
  import opened Text
  import opened UriEncoding
  import opened Schema
  import opened StopOrder

  const MapsBase := "https://www.google.com/maps/dir/"

  /** `lat,lng` when both are non-empty, the address text otherwise. */
  function LocationParam(address: string, lat: Option<string>, lng: Option<string>): string {
    if Truthy(lat) && Truthy(lng) then lat.value + "," + lng.value else address
  }

  /** `${encodeURIComponent(p)}/`: one location of the path. */
  function Segment(p: string): string {
    EncodeUriComponent(p) + "/"
  }

  /** The link path after the base: one segment per location. */
  function MapsPath(params: seq<string>): (path: string)
    ensures path == [] <==> params == []
  {
    if params == [] then "" else Segment(params[0]) + MapsPath(params[1..])
  }

  function EncodedAll(params: seq<string>): (parts: seq<string>)
    ensures |parts| == |params|
    ensures forall k :: 0 <= k < |parts| ==> parts[k] == EncodeUriComponent(params[k])
  {
    if params == [] then [] else [EncodeUriComponent(params[0])] + EncodedAll(params[1..])
  }

  /** Decodes every part, failing where one does not decode. */
  function DecodeAll(parts: seq<string>): Option<seq<string>> {
    if parts == [] then Some([])
    else
      var first := DecodeUriComponent(parts[0]);
      var rest := DecodeAll(parts[1..]);
      if first.None? || rest.None? then None else Some([first.value] + rest.value)
  }

  /** Reads a link path back into its locations: the path must end with
      `/` and every piece between slashes must decode. */
  function ParseMapsPath(path: string): Option<seq<string>> {
    var parts := Split(path, '/');
    if parts[|parts| - 1] != "" then None else DecodeAll(parts[..|parts| - 1])
  }

  /** Appending a location appends its segment. */
  lemma {:induction false} MapsPathAppend(params: seq<string>, p: string)
    ensures MapsPath(params + [p]) == MapsPath(params) + Segment(p)
  {
    if params != [] {
      var rest := params[1..];
      assert (params + [p])[0] == params[0] && (params + [p])[1..] == rest + [p];
      MapsPathAppend(rest, p);
      Regroup3(Segment(params[0]), MapsPath(rest), Segment(p));
    } else {
      assert params + [p] == [p];
    }
  }

  /** The path is the encoded locations joined by `/`, with a trailing `/`. */
  lemma {:induction false} MapsPathIsJoin(params: seq<string>)
    ensures MapsPath(params) == Join(EncodedAll(params) + [""], '/')
  {
    if params != [] {
      MapsPathIsJoin(params[1..]);
      var parts := EncodedAll(params) + [""];
      assert parts[1..] == EncodedAll(params[1..]) + [""];
    }
  }

  lemma {:induction false} DecodeAllEncoded(params: seq<string>)
    ensures DecodeAll(EncodedAll(params)) == Some(params)
  {
    if params != [] {
      DecodeEncode(params[0]);
      DecodeAllEncoded(params[1..]);
      assert EncodedAll(params)[1..] == EncodedAll(params[1..]);
      assert [params[0]] + params[1..] == params;
    }
  }

  /** A link path determines the locations it was built from, in order. */
  lemma ParseMapsPathRoundTrip(params: seq<string>)
    ensures ParseMapsPath(MapsPath(params)) == Some(params)
  {
    var parts := EncodedAll(params) + [""];
    MapsPathIsJoin(params);
    SplitJoin(parts, '/');
    assert parts[..|parts| - 1] == EncodedAll(params);
    DecodeAllEncoded(params);
  }

  /** `encodeURIComponent` escapes `/`, so the path has exactly one `/`
      per location. */
  lemma {:induction false} MapsPathSlashes(params: seq<string>)
    ensures Occurrences(MapsPath(params), '/') == |params|
  {
    if params != [] {
      var e := EncodeUriComponent(params[0]);
      MapsPathSlashes(params[1..]);
      OccurrencesAppend(e, "/", '/');
      OccurrencesAppend(e + "/", MapsPath(params[1..]), '/');
    }
  }

  function AddressLocation(a: Address): string {
    LocationParam(a.address, a.lat, a.lng)
  }

  function Locations(xs: seq<Address>): (ps: seq<string>)
    ensures |ps| == |xs|
    ensures forall k :: 0 <= k < |xs| ==> ps[k] == AddressLocation(xs[k])
  {
    if xs == [] then [] else [AddressLocation(xs[0])] + Locations(xs[1..])
  }

  /** What a link built from `params` says about them: the path follows
      the base, is empty exactly when there are no locations, and holds
      one `/` per location. */
  lemma LinkShape(base: string, params: seq<string>)
    ensures (base + MapsPath(params))[|base|..] == MapsPath(params)
    ensures base + MapsPath(params) == base <==> params == []
    ensures Occurrences((base + MapsPath(params))[|base|..], '/') == |params|
  {
    MapsPathSlashes(params);
    assert |base + MapsPath(params)| == |base| + |MapsPath(params)|;
  }

  /** One step of the link-building loops: appending the next segment. */
  lemma AppendSegment(base: string, url: string, params: seq<string>, i: int)
    requires 0 <= i < |params|
    requires url == base + MapsPath(params[..i])
    ensures url + Segment(params[i]) == base + MapsPath(params[..i + 1])
  {
    var done, next := params[..i], params[i];
    assert params[..i + 1] == done + [next];
    MapsPathAppend(done, next);
    Regroup3(base, MapsPath(done), Segment(next));
  }

  /** The loops start from the bare base. */
  lemma EmptyPath(base: string, params: seq<string>)
    ensures base == base + MapsPath(params[..0])
  {
    assert params[..0] == [];
  }

  /** The loops end with the whole path. */
  lemma LinkComplete(base: string, url: string, params: seq<string>)
    requires url == base + MapsPath(params[..|params|])
    ensures url == base + MapsPath(params)
    ensures url == base <==> params == []
    ensures Occurrences(url[|base|..], '/') == |params|
  {
    assert params[..|params|] == params;
    LinkShape(base, params);
  }

  /** `generateMapsUrl(addresses)`: the base followed by one segment per
      stop of a sorted copy (the caller's list is a value and stays as it
      is). The link is the bare base exactly when there are no stops, and
      holds one `/` after the base per stop. */
  method GenerateMapsUrl(addresses: seq<Address>) returns (url: string)
    ensures url == MapsBase + MapsPath(Locations(Sort(addresses)))
    ensures url == MapsBase <==> addresses == []
    ensures Occurrences(url[|MapsBase|..], '/') == |addresses|
  {
    var sorted := Sort(addresses);
    ghost var params := Locations(sorted);
    url := MapsBase;
    EmptyPath(MapsBase, params);
    for i := 0 to |sorted|
      invariant url == MapsBase + MapsPath(params[..i])
    {
      var locationParam := AddressLocation(sorted[i]);
      assert locationParam == params[i];
      AppendSegment(MapsBase, url, params, i);
      url := url + Segment(locationParam);
    }
    LinkComplete(MapsBase, url, params);
  }

  /** A stop as the client holds it. */
  datatype ClientStop = ClientStop(address: string, lat: Option<string>, lng: Option<string>)

  function ClientLocations(xs: seq<ClientStop>): (ps: seq<string>)
    ensures |ps| == |xs|
    ensures forall k :: 0 <= k < |xs| ==> ps[k] == LocationParam(xs[k].address, xs[k].lat, xs[k].lng)
  {
    if xs == [] then [] else [LocationParam(xs[0].address, xs[0].lat, xs[0].lng)] + ClientLocations(xs[1..])
  }

  /** `formatGoogleMapsUrl(addresses)`: `""` for a missing or empty list,
      otherwise the base followed by one segment per stop in the given
      order, one `/` per stop. */
  method FormatGoogleMapsUrl(addresses: Option<seq<ClientStop>>) returns (url: string)
    ensures addresses.None? || addresses.value == [] ==> url == ""
    ensures addresses.Some? && addresses.value != [] ==>
              url == MapsBase + MapsPath(ClientLocations(addresses.value))
              && Occurrences(url[|MapsBase|..], '/') == |addresses.value|
  {
    if addresses.None? || |addresses.value| == 0 {
      return "";
    }
    var stops := addresses.value;
    ghost var params := ClientLocations(stops);
    url := MapsBase;
    EmptyPath(MapsBase, params);
    var i := 0;
    while i < |stops|
      invariant 0 <= i <= |stops|
      invariant url == MapsBase + MapsPath(params[..i])
    {
      var addr := stops[i];
      var locationParam := LocationParam(addr.address, addr.lat, addr.lng);
      assert locationParam == params[i];
      AppendSegment(MapsBase, url, params, i);
      url := url + Segment(locationParam);
      i := i + 1;
    }
    LinkComplete(MapsBase, url, params);
  }

  function ClientStopOf(a: Address): ClientStop {
    ClientStop(a.address, a.lat, a.lng)
  }

  function ClientStops(xs: seq<Address>): (cs: seq<ClientStop>)
    ensures |cs| == |xs|
    ensures forall k :: 0 <= k < |xs| ==> cs[k] == ClientStopOf(xs[k])
  {
    if xs == [] then [] else [ClientStopOf(xs[0])] + ClientStops(xs[1..])
  }

  /** On a non-empty list already in canonical order, the client's link
      and the server's link have the same path. */
  lemma ClientLinkMatchesServer(xs: seq<Address>)
    requires SingleRoles(xs) && Sorted(xs)
    ensures MapsPath(ClientLocations(ClientStops(xs))) == MapsPath(Locations(Sort(xs)))
  {
    SortOfSorted(xs);
    assert ClientLocations(ClientStops(xs)) == Locations(xs);
  }
}
